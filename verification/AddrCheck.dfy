/** The self-check of the address manager, as code: it counts down what the tables say against
    each other and returns zero, or the number of a contradiction.  It returns zero exactly for the tables
    that agree with each other, apart from what it does not look at. */
module AddrCheck {
  import opened Wrappers
  import opened AddrTables

  // ---------- what the check looks at ----------

  /** Every entry's address leads to it; a missing address reads as id zero. */
  ghost predicate AddrForward(m: InfoMap, mapAddr: map<NetAddr, int>) {
    forall id :: id in m ==> (if m[id].service.addr in mapAddr then mapAddr[m[id].service.addr] else 0) == id
  }

  ghost predicate KnownOnly(m: InfoMap, vvNew: seq<set<int>>) {
    forall b :: 0 <= b < |vvNew| ==> vvNew[b] <= m.Keys
  }

  /** The reference count is the number of "new" buckets that hold the id: none if it is tried, else one to four. */
  ghost predicate RefsAgree(m: InfoMap, vvNew: seq<set<int>>) {
    forall id :: id in m ==>
      && m[id].nRefCount == |Holders(vvNew, id)|
      && if m[id].fInTried then m[id].nRefCount == 0 else 1 <= m[id].nRefCount <= NEW_BUCKETS_PER_ADDRESS
  }

  /** The tables agree, in all that the check looks at. */
  ghost predicate Agree(t: Tables) {
    && RandomOk(t.mapInfo, t.vRandom)
    && AddrForward(t.mapInfo, t.mapAddr)
    && RefsAgree(t.mapInfo, t.vvNew)
    && KnownOnly(t.mapInfo, t.vvNew)
    && TriedOk(t.mapInfo, t.vvTried)
    && CountsOk(t.mapInfo, t.nNew, t.nTried)
    && TimesOk(t.mapInfo)
  }

  /** What the check does not look at: the number and size of buckets, the range of ids, and addresses that lead
      nowhere, or are missing for id zero. */
  ghost predicate Unchecked(t: Tables) {
    && BucketsOk(t.mapInfo, t.vvNew, t.vvTried)
    && InfosOk(t.mapInfo, t.nIdCount)
    && (forall a :: a in t.mapAddr ==> t.mapAddr[a] in t.mapInfo && t.mapInfo[t.mapAddr[a]].service.addr == a)
    && (0 in t.mapInfo ==> t.mapInfo[0].service.addr in t.mapAddr)
  }

  lemma ConsistentIsAgreement(t: Tables)
    ensures Consistent(t, NOBODY) && TimesOk(t.mapInfo) <==> Agree(t) && Unchecked(t)
  {
    hide RandomOk, TriedOk, CountsOk, TimesOk, Holders;
  }

  // ---------- single entries ----------

  /** The checks on single entries; the negated number of the first one that fails. */
  function CheckInfo(t: Tables, n: int, info: Info): int {
    if info.fInTried && info.nLastSuccess == 0 then -1
    else if info.fInTried && info.nRefCount != 0 then -2
    else if !info.fInTried && (info.nRefCount < 0 || info.nRefCount > NEW_BUCKETS_PER_ADDRESS) then -3
    else if !info.fInTried && info.nRefCount == 0 then -4
    else if (if info.service.addr in t.mapAddr then t.mapAddr[info.service.addr] else 0) != n then -5
    else if info.nRandomPos < 0 || info.nRandomPos >= |t.vRandom| || t.vRandom[info.nRandomPos] != n then -14
    else if info.nLastTry < 0 then -6
    else if info.nLastSuccess < 0 then -8
    else 0
  }

  ghost predicate InfosPass(t: Tables) {
    forall n :: n in t.mapInfo ==> CheckInfo(t, n, t.mapInfo[n]) == 0
  }

  /** The first pass: checks every entry, and sorts the ids into tried and new. */
  method Collect(t: Tables) returns (code: int, setTried: set<int>, mapNew: map<int, int>)
    ensures code == 0 <==> InfosPass(t)
    ensures code == 0 ==> setTried == TriedIds(t.mapInfo) && mapNew.Keys == NewIds(t.mapInfo)
    ensures code == 0 ==> forall id :: id in mapNew ==> mapNew[id] == t.mapInfo[id].nRefCount >= 1
  {
    setTried, mapNew := {}, map[];
    var keys := t.mapInfo.Keys;
    while true
      invariant keys <= t.mapInfo.Keys
      invariant forall n :: n in t.mapInfo && n !in keys ==> CheckInfo(t, n, t.mapInfo[n]) == 0
      invariant forall id :: id in setTried <==> id in t.mapInfo && id !in keys && t.mapInfo[id].fInTried
      invariant forall id :: id in mapNew <==> id in t.mapInfo && id !in keys && !t.mapInfo[id].fInTried
      invariant forall id :: id in mapNew ==> mapNew[id] == t.mapInfo[id].nRefCount >= 1
      decreases |keys|
    {
      if n: int :| n in keys {
        code := CheckInfo(t, n, t.mapInfo[n]);
        if code != 0 {
          return;
        }
        hide CheckInfo;
        if t.mapInfo[n].fInTried {
          setTried := setTried + {n};
        } else {
          mapNew := mapNew[n := t.mapInfo[n].nRefCount];
        }
        keys := keys - {n};
      } else {
        break;
      }
    }
    code := 0;
    forall id: int
      ensures id in setTried <==> id in TriedIds(t.mapInfo)
      ensures id in mapNew.Keys <==> id in NewIds(t.mapInfo)
    {
    }
    assert setTried == TriedIds(t.mapInfo);
    assert mapNew.Keys == NewIds(t.mapInfo);
  }

  // ---------- the "tried" buckets ----------

  function One(s: set<int>, id: int): nat { if id in s then 1 else 0 }

  /** Crosses the entries of one bucket off a set; None if one is not there. */
  method CrossOff(vTried: seq<int>, s: set<int>) returns (r: Option<set<int>>)
    ensures r.Some? ==> forall id :: multiset(vTried)[id] + One(r.value, id) == One(s, id)
    ensures r.None? ==> exists id :: multiset(vTried)[id] > One(s, id)
  {
    var left := s;
    var i := 0;
    while i < |vTried|
      invariant 0 <= i <= |vTried|
      invariant forall id :: multiset(vTried[..i])[id] + One(left, id) == One(s, id)
    {
      ghost var x := vTried[i];
      assert vTried[..i + 1] == vTried[..i] + [x];
      if vTried[i] !in left {
        assert multiset(vTried[..i + 1])[x] > One(s, x);
        PrefixCount(vTried, i + 1, x);
        return None;
      }
      left := left - {vTried[i]};
      i := i + 1;
    }
    assert vTried[..i] == vTried;
    r := Some(left);
  }

  lemma PrefixCount(v: seq<int>, i: nat, x: int)
    requires i <= |v|
    ensures multiset(v[..i])[x] <= multiset(v)[x]
  {
    assert v == v[..i] + v[i..];
  }

  /** Crosses every entry of the "tried" buckets off the set; None if one is not there. */
  method CheckTried(vvTried: seq<seq<int>>, tried: set<int>) returns (left: Option<set<int>>)
    ensures left == Some({}) <==> forall id :: AllTried(vvTried)[id] == One(tried, id)
  {
    hide AllTried, One;
    var setTried := tried;
    var n := 0;
    assert vvTried[0..] == vvTried;
    while n < |vvTried|
      invariant 0 <= n <= |vvTried|
      invariant forall id :: AllTried(vvTried)[id] - AllTried(vvTried[n..])[id] + One(setTried, id) == One(tried, id)
      invariant forall id :: AllTried(vvTried[n..])[id] <= AllTried(vvTried)[id]
    {
      TriedStep(vvTried, n);
      var r := CrossOff(vvTried[n], setTried);
      if r.None? {
        ghost var x: int :| multiset(vvTried[n])[x] > One(setTried, x);
        assert AllTried(vvTried)[x] > One(tried, x);
        return None;
      }
      setTried := r.value;
      n := n + 1;
    }
    NothingTried(vvTried);
    Crossed(vvTried, tried, setTried);
    left := Some(setTried);
  }

  lemma Crossed(vvTried: seq<seq<int>>, tried: set<int>, left: set<int>)
    requires forall id :: AllTried(vvTried)[id] + One(left, id) == One(tried, id)
    ensures left == {} <==> forall id :: AllTried(vvTried)[id] == One(tried, id)
  {
    hide AllTried;
    if forall id :: AllTried(vvTried)[id] == One(tried, id) {
      forall id: int ensures id !in left { assert One(left, id) == 0; }
      assert left == {};
    }
  }

  lemma NothingTried(vv: seq<seq<int>>)
    ensures AllTried(vv[|vv|..]) == multiset{}
  {
    assert vv[|vv|..] == [];
  }

  lemma TriedStep(vv: seq<seq<int>>, n: nat)
    requires n < |vv|
    ensures forall id :: AllTried(vv[n..])[id] == multiset(vv[n])[id] + AllTried(vv[n + 1..])[id]
  {
    assert vv[n..][0] == vv[n] && vv[n..][1..] == vv[n + 1..];
  }

  // ---------- the "new" buckets ----------

  function Count(m: map<int, int>, id: int): int { if id in m then m[id] else 0 }

  predicate Positive(m: map<int, int>) {
    forall id :: id in m ==> m[id] >= 1
  }

  /** Counts the entries of one bucket down, dropping those that reach zero; None if one is not there. */
  method CountDown(vNew: set<int>, m: map<int, int>) returns (r: Option<map<int, int>>)
    requires Positive(m)
    ensures r.Some? ==> Positive(r.value) && forall id :: Count(r.value, id) + One(vNew, id) == Count(m, id)
    ensures r.None? ==> exists id :: id in vNew && Count(m, id) == 0
  {
    var next := m;
    var rest := vNew;
    while true
      invariant rest <= vNew && Positive(next)
      invariant forall id :: Count(next, id) + One(vNew - rest, id) == Count(m, id)
      decreases |rest|
    {
      if x: int :| x in rest {
        if x !in next {
          assert Count(m, x) == 0;
          return None;
        }
        ghost var before := next;
        if next[x] == 1 {
          next := next - {x};
        } else {
          next := next[x := next[x] - 1];
        }
        rest := rest - {x};
        forall id: int
          ensures Count(next, id) + One(vNew - rest, id) == Count(m, id)
        {
          assert Count(before, id) + One(vNew - (rest + {x}), id) == Count(m, id);
        }
      } else {
        break;
      }
    }
    forall id: int ensures One(vNew - rest, id) == One(vNew, id) {}
    r := Some(next);
  }

  /** How many of the first n "new" buckets hold an id. */
  ghost function Held(vvNew: seq<set<int>>, n: nat, id: int): nat
    requires n <= |vvNew|
  {
    |HeldIn(vvNew, n, id)|
  }

  ghost function HeldIn(vvNew: seq<set<int>>, n: nat, id: int): set<int>
    requires n <= |vvNew|
  {
    set b | 0 <= b < n && id in vvNew[b]
  }

  lemma HeldStep(vvNew: seq<set<int>>, n: nat, id: int)
    requires n < |vvNew|
    ensures Held(vvNew, n + 1, id) == Held(vvNew, n, id) + One(vvNew[n], id)
  {
    var before, after := HeldIn(vvNew, n, id), HeldIn(vvNew, n + 1, id);
    assert n !in before;
    assert after == before + if id in vvNew[n] then {n} else {};
  }

  lemma {:induction false} HeldMono(vvNew: seq<set<int>>, n: nat, id: int)
    requires n <= |vvNew|
    ensures Held(vvNew, n, id) <= |Holders(vvNew, id)|
    decreases |vvNew| - n
  {
    if n == |vvNew| {
      assert Holders(vvNew, id) == HeldIn(vvNew, n, id);
    } else {
      hide Held;
      HeldStep(vvNew, n, id);
      HeldMono(vvNew, n + 1, id);
    }
  }

  lemma HeldEnds(vvNew: seq<set<int>>, id: int)
    ensures Held(vvNew, 0, id) == 0 && Held(vvNew, |vvNew|, id) == |Holders(vvNew, id)|
  {
    assert HeldIn(vvNew, 0, id) == {};
    assert Holders(vvNew, id) == HeldIn(vvNew, |vvNew|, id);
  }

  /** Counts every entry of the "new" buckets down in the map; None if one is not there. */
  method CheckNew(vvNew: seq<set<int>>, counts: map<int, int>) returns (rest: Option<map<int, int>>)
    requires Positive(counts)
    ensures rest == Some(map[]) <==> forall id :: |Holders(vvNew, id)| == Count(counts, id)
  {
    hide Held, Holders, One, Count, Positive;
    var mapNew := counts;
    var n := 0;
    forall id: int ensures Held(vvNew, 0, id) == 0 { HeldEnds(vvNew, id); }
    while n < |vvNew|
      invariant 0 <= n <= |vvNew| && Positive(mapNew)
      invariant forall id :: Count(mapNew, id) + Held(vvNew, n, id) == Count(counts, id)
    {
      var r := CountDown(vvNew[n], mapNew);
      if r.None? {
        ghost var x: int :| x in vvNew[n] && Count(mapNew, x) == 0;
        Overdrawn(vvNew, n, x, Count(counts, x));
        return None;
      }
      forall id: int
        ensures Count(r.value, id) + Held(vvNew, n + 1, id) == Count(counts, id)
      {
        HeldStep(vvNew, n, id);
        assert Count(mapNew, id) + Held(vvNew, n, id) == Count(counts, id);
      }
      mapNew := r.value;
      n := n + 1;
    }
    forall id: int ensures Count(mapNew, id) + |Holders(vvNew, id)| == Count(counts, id) {
      HeldEnds(vvNew, id);
      assert Count(mapNew, id) + Held(vvNew, n, id) == Count(counts, id);
    }
    CountedOut(vvNew, counts, mapNew);
    rest := Some(mapNew);
  }

  lemma Overdrawn(vvNew: seq<set<int>>, n: nat, x: int, count: int)
    requires n < |vvNew| && x in vvNew[n] && Held(vvNew, n, x) == count
    ensures |Holders(vvNew, x)| > count
  {
    hide Held, Holders;
    HeldStep(vvNew, n, x);
    HeldMono(vvNew, n + 1, x);
  }

  lemma CountedOut(vvNew: seq<set<int>>, counts: map<int, int>, rest: map<int, int>)
    requires Positive(rest) && forall id :: Count(rest, id) + |Holders(vvNew, id)| == Count(counts, id)
    ensures rest == map[] <==> forall id :: |Holders(vvNew, id)| == Count(counts, id)
  {
    hide Holders;
    if forall id :: |Holders(vvNew, id)| == Count(counts, id) {
      forall id: int ensures id !in rest { assert Count(rest, id) == 0; }
      assert rest == map[];
    }
  }

  // ---------- the whole check ----------

  /** Returns zero if and only if the tables agree. */
  method Check(t: Tables) returns (code: int)
    ensures code == 0 <==> Agree(t)
  {
    hide Agree, InfosPass, TriedIds, NewIds, Holders, AllTried, One, Count, Positive, TriedOk, CountsOk;
    if |t.vRandom| != t.nTried + t.nNew {
      if Agree(t) { AgreeingSizes(t); }
      return -7;
    }
    var bad, setTried, mapNew := Collect(t);
    AgreementIs(t);
    if bad != 0 {
      return bad;
    }
    CountsAre(t, setTried, mapNew);
    if |setTried| != t.nTried {
      return -9;
    }
    if |mapNew| != t.nNew {
      return -10;
    }
    var left := CheckTried(t.vvTried, setTried);
    TriedAre(t, setTried);
    if left.None? {
      return -11;
    }
    var rest := CheckNew(t.vvNew, mapNew);
    if rest.None? {
      return -12;
    }
    if left.value != {} {
      return -13;
    }
    if rest.value != map[] {
      return -15;
    }
    return 0;
  }

  lemma AgreeingSizes(t: Tables)
    requires Agree(t)
    ensures |t.vRandom| == t.nTried + t.nNew
  {
    var m := t.mapInfo;
    hide RefsAgree, TriedOk, TimesOk, AddrForward, KnownOnly;
    SplitKeys(m);
    RandomSize(m, t.vRandom);
  }

  lemma SplitKeys(m: InfoMap)
    ensures |m| == |NewIds(m)| + |TriedIds(m)|
  {
    assert NewIds(m) + TriedIds(m) == m.Keys && NewIds(m) !! TriedIds(m);
  }

  lemma CountsAre(t: Tables, setTried: set<int>, mapNew: map<int, int>)
    requires setTried == TriedIds(t.mapInfo) && mapNew.Keys == NewIds(t.mapInfo)
    requires forall id :: id in mapNew ==> mapNew[id] == t.mapInfo[id].nRefCount >= 1
    ensures CountsOk(t.mapInfo, t.nNew, t.nTried) <==> |setTried| == t.nTried && |mapNew| == t.nNew
    ensures Positive(mapNew)
    ensures (forall id :: |Holders(t.vvNew, id)| == Count(mapNew, id)) <==> Referred(t)
  {
    hide Holders;
    assert |mapNew| == |mapNew.Keys|;
    forall id: int ensures Count(mapNew, id) == Refs(t.mapInfo, id) {}
  }

  function Refs(m: InfoMap, id: int): int {
    if id in m && !m[id].fInTried then m[id].nRefCount else 0
  }

  /** Every id is in as many "new" buckets as its entry says, and in none without an entry. */
  ghost predicate Referred(t: Tables) {
    forall id :: |Holders(t.vvNew, id)| == Refs(t.mapInfo, id)
  }

  lemma TriedAre(t: Tables, setTried: set<int>)
    requires setTried == TriedIds(t.mapInfo)
    ensures TriedOk(t.mapInfo, t.vvTried) <==> forall id :: AllTried(t.vvTried)[id] == One(setTried, id)
  {
    hide AllTried;
    forall id: int ensures One(setTried, id) == if id in t.mapInfo && t.mapInfo[id].fInTried then 1 else 0 {}
  }

  /** The agreement, as the check goes about it. */
  lemma AgreementIs(t: Tables)
    requires |t.vRandom| == t.nTried + t.nNew
    ensures Agree(t) <==>
      InfosPass(t) && CountsOk(t.mapInfo, t.nNew, t.nTried) && TriedOk(t.mapInfo, t.vvTried) && Referred(t)
  {
    hide TriedOk;
    if Agree(t) { AgreePasses(t); }
    if InfosPass(t) && CountsOk(t.mapInfo, t.nNew, t.nTried) && TriedOk(t.mapInfo, t.vvTried) && Referred(t) {
      PassingAgrees(t);
    }
  }

  lemma AgreePasses(t: Tables)
    requires Agree(t)
    ensures InfosPass(t) && Referred(t)
  {
    hide TriedOk, CountsOk;
    forall n | n in t.mapInfo ensures CheckInfo(t, n, t.mapInfo[n]) == 0 { assert TimeOk(t.mapInfo[n]); }
    forall id: int ensures |Holders(t.vvNew, id)| == Refs(t.mapInfo, id) {
      if id !in t.mapInfo { assert Holders(t.vvNew, id) == {}; }
    }
  }

  lemma PassingAgrees(t: Tables)
    requires |t.vRandom| == t.nTried + t.nNew && InfosPass(t) && Referred(t)
    requires CountsOk(t.mapInfo, t.nNew, t.nTried) && TriedOk(t.mapInfo, t.vvTried)
    ensures Agree(t)
  {
    hide TriedOk, Holders;
    var m := t.mapInfo;
    forall id | id in m
      ensures TimeOk(m[id]) && 0 <= m[id].nRandomPos < |t.vRandom| && t.vRandom[m[id].nRandomPos] == id
      ensures (if m[id].service.addr in t.mapAddr then t.mapAddr[m[id].service.addr] else 0) == id
      ensures m[id].nRefCount == |Holders(t.vvNew, id)|
      ensures if m[id].fInTried then m[id].nRefCount == 0 else 1 <= m[id].nRefCount <= NEW_BUCKETS_PER_ADDRESS
    {
      assert CheckInfo(t, id, m[id]) == 0;
      assert |Holders(t.vvNew, id)| == Refs(m, id);
    }
    SplitKeys(m);
    AllPlacesTaken(m, t.vRandom);
    HeldAreKnown(t);
  }

  lemma HeldAreKnown(t: Tables)
    requires Referred(t)
    ensures KnownOnly(t.mapInfo, t.vvNew)
  {
    forall b, id: int | 0 <= b < |t.vvNew| && id in t.vvNew[b]
      ensures id in t.mapInfo
    {
      assert b in Holders(t.vvNew, id);
      assert |Holders(t.vvNew, id)| == Refs(t.mapInfo, id);
    }
  }

  /** As many entries as places, each in a place of its own: so every place is taken. */
  lemma AllPlacesTaken(m: InfoMap, vRandom: seq<int>)
    requires |m| == |vRandom|
    requires forall id :: id in m ==> 0 <= m[id].nRandomPos < |vRandom| && vRandom[m[id].nRandomPos] == id
    ensures RandomOk(m, vRandom)
  {
    PlacesBound(m, vRandom);
  }

  lemma {:induction false} PlacesBound(m: InfoMap, v: seq<int>)
    requires forall id :: id in m ==> 0 <= m[id].nRandomPos < |v| && v[m[id].nRandomPos] == id
    ensures |m| <= |v|
    ensures |m| == |v| ==> forall i :: 0 <= i < |v| ==> v[i] in m && m[v[i]].nRandomPos == i
    decreases |v|
  {
    if v == [] {
      assert forall id :: id !in m;
      assert m == map[];
    } else {
      var last := |v| - 1;
      var x, w := v[last], v[..last];
      if x in m && m[x].nRandomPos == last {
        PlacesBound(m - {x}, w);
        assert (m - {x}).Keys == m.Keys - {x};
        forall i | |m| == |v| && 0 <= i < |v|
          ensures v[i] in m && m[v[i]].nRandomPos == i
        {
          if i < last { assert w[i] == v[i]; }
        }
      } else {
        PlacesBound(m, w);
      }
    }
  }
}
