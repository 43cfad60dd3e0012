/** Linking of block bodies that arrive in any order. */
module ArrivalOrder {
  import opened BlockTree
  import opened SkipList

  // ---------- what the counters should be ----------

  /** All blocks from the root to i have been received. */
  ghost predicate AllData(t: Tree, data: seq<bool>, i: int)
    requires Linked(t) && |data| == |t| && NULL <= i < |t|
    decreases i
  {
    i == NULL || (data[i] && AllData(t, data, t[i].prev))
  }

  /** The number of transactions from the root to i. */
  ghost function PathTx(t: Tree, nTx: seq<nat>, i: int): nat
    requires Linked(t) && |nTx| == |t| && NULL <= i < |t|
    decreases i
  {
    if i == NULL then 0 else PathTx(t, nTx, t[i].prev) + nTx[i]
  }

  /** A received block has transactions; one that is not has none counted. */
  ghost predicate Counts(t: Tree, nTx: seq<nat>, data: seq<bool>) {
    Linked(t) && |nTx| == |t| && |data| == |t| &&
    forall i :: 0 <= i < |t| ==> (data[i] <==> nTx[i] > 0)
  }

  /** A counted block has data and a counted parent, and counts one block more. */
  ghost predicate Summed(t: Tree, nTx: seq<nat>, data: seq<bool>, chainTx: seq<nat>) {
    Counts(t, nTx, data) && |chainTx| == |t| &&
    forall i :: 0 <= i < |t| && chainTx[i] > 0 ==> SummedAt(t, nTx, data, chainTx, i)
  }

  ghost predicate SummedAt(t: Tree, nTx: seq<nat>, data: seq<bool>, chainTx: seq<nat>, i: int)
    requires Counts(t, nTx, data) && |chainTx| == |t| && 0 <= i < |t|
  {
    var p := t[i].prev;
    data[i] && (p == NULL || chainTx[p] > 0) && chainTx[i] == (if p == NULL then 0 else chainTx[p]) + nTx[i]
  }

  /** The parent of i has not been linked. */
  ghost predicate ParentWaits(t: Tree, chainTx: seq<nat>, i: int)
    requires Linked(t) && |chainTx| == |t| && 0 <= i < |t|
  {
    t[i].prev != NULL && chainTx[t[i].prev] == 0
  }

  /** The waiting list holds a pair for every received block that is not counted, unless its parent failed.
      While the queue is worked on, its blocks are excepted, and so is the parent x being linked. */
  ghost predicate Waiting(
      t: Tree, data: seq<bool>, chainTx: seq<nat>, failed: seq<bool>, unlinked: set<(int, int)>, queue: seq<int>,
      x: int)
    requires Linked(t) && |data| == |t| && |chainTx| == |t| && |failed| == |t|
  {
    (forall p, i :: (p, i) in unlinked ==>
      0 <= i < |t| && p == t[i].prev && p != NULL && data[i] && chainTx[i] == 0 &&
        (p == x || ParentWaits(t, chainTx, i))) &&
    (forall i :: 0 <= i < |t| && data[i] && chainTx[i] == 0 && i !in queue ==>
      t[i].prev != NULL && ((t[i].prev, i) in unlinked || failed[t[i].prev]))
  }

  /** The blocks whose parent has just been counted. */
  ghost predicate Queued(t: Tree, data: seq<bool>, chainTx: seq<nat>, unlinked: set<(int, int)>, queue: seq<int>)
    requires Linked(t) && |data| == |t| && |chainTx| == |t|
  {
    (forall k :: 0 <= k < |queue| ==>
      0 <= queue[k] < |t| && data[queue[k]] && chainTx[queue[k]] == 0 &&
      (t[queue[k]].prev == NULL || chainTx[t[queue[k]].prev] > 0) && (t[queue[k]].prev, queue[k]) !in unlinked) &&
    (forall j, k :: 0 <= j < k < |queue| ==> queue[j] != queue[k])
  }

  // ---------- the counters are what they should be ----------

  lemma {:induction false} CountedSum(t: Tree, nTx: seq<nat>, data: seq<bool>, chainTx: seq<nat>, i: int)
    requires Summed(t, nTx, data, chainTx) && 0 <= i < |t| && chainTx[i] > 0
    ensures AllData(t, data, i) && chainTx[i] == PathTx(t, nTx, i)
    decreases i
  {
    assert SummedAt(t, nTx, data, chainTx, i);
    if t[i].prev != NULL { CountedSum(t, nTx, data, chainTx, t[i].prev); }
  }

  /** No block above i has failed. */
  ghost predicate NoFailedParent(t: Tree, failed: seq<bool>, i: int)
    requires Linked(t) && |failed| == |t| && NULL <= i < |t|
    decreases i
  {
    i == NULL || t[i].prev == NULL || (!failed[t[i].prev] && NoFailedParent(t, failed, t[i].prev))
  }

  lemma {:induction false} AllCounted(
      t: Tree, nTx: seq<nat>, data: seq<bool>, chainTx: seq<nat>, failed: seq<bool>, unlinked: set<(int, int)>, i: int)
    requires Summed(t, nTx, data, chainTx) && |failed| == |t| && Waiting(t, data, chainTx, failed, unlinked, [], NULL)
    requires 0 <= i < |t| && NoFailedParent(t, failed, i) && AllData(t, data, i)
    ensures chainTx[i] > 0
    decreases i
  {
    if t[i].prev != NULL { AllCounted(t, nTx, data, chainTx, failed, unlinked, t[i].prev); }
  }

  /** Without failed headers, the counter is nonzero exactly when all blocks down to the root have been
      received, and then it is the sum along the path; the waiting list is exactly the received blocks
      that are not linked. */
  lemma CountersExact(
      t: Tree, nTx: seq<nat>, data: seq<bool>, chainTx: seq<nat>, failed: seq<bool>, unlinked: set<(int, int)>)
    requires Summed(t, nTx, data, chainTx) && |failed| == |t| && Waiting(t, data, chainTx, failed, unlinked, [], NULL)
    requires forall i :: 0 <= i < |t| ==> !failed[i]
    ensures forall i :: 0 <= i < |t| ==> chainTx[i] == if AllData(t, data, i) then PathTx(t, nTx, i) else 0
    ensures forall i :: 0 <= i < |t| ==> (chainTx[i] > 0 <==> AllData(t, data, i))
    ensures forall p, i :: (p, i) in unlinked <==> 0 <= i < |t| && p == t[i].prev && data[i] && !AllData(t, data, i)
  {
    hide AllData, PathTx, NoFailedParent, SummedAt;
    forall i | 0 <= i < |t|
      ensures chainTx[i] == if AllData(t, data, i) then PathTx(t, nTx, i) else 0
      ensures chainTx[i] > 0 <==> AllData(t, data, i)
    {
      if chainTx[i] > 0 { CountedSum(t, nTx, data, chainTx, i); }
      if AllData(t, data, i) {
        NoneFailed(t, failed, i);
        AllCounted(t, nTx, data, chainTx, failed, unlinked, i);
      }
    }
    forall p, i
      ensures (p, i) in unlinked <==> 0 <= i < |t| && p == t[i].prev && data[i] && !AllData(t, data, i)
    {
    }
  }

  lemma {:induction false} NoneFailed(t: Tree, failed: seq<bool>, i: int)
    requires Linked(t) && |failed| == |t| && NULL <= i < |t| && forall j :: 0 <= j < |t| ==> !failed[j]
    ensures NoFailedParent(t, failed, i)
    decreases i
  {
    if i != NULL { NoneFailed(t, failed, t[i].prev); }
  }

  // ---------- one step of the queue ----------

  /** Counting the block at the front of the queue. */
  lemma CountOne(t: Tree, nTx: seq<nat>, data: seq<bool>, chainTx: seq<nat>, i: int, c: nat)
    requires Summed(t, nTx, data, chainTx) && 0 <= i < |t| && data[i] && chainTx[i] == 0
    requires t[i].prev == NULL || chainTx[t[i].prev] > 0
    requires c == (if t[i].prev == NULL then 0 else chainTx[t[i].prev]) + nTx[i]
    ensures c > 0 && Summed(t, nTx, data, chainTx[i := c])
  {
    var after := chainTx[i := c];
    forall j | 0 <= j < |t| && after[j] > 0 ensures SummedAt(t, nTx, data, after, j) {
      if j != i {
        assert SummedAt(t, nTx, data, chainTx, j);
        assert t[j].prev != NULL ==> t[j].prev != i;
      }
    }
  }

  lemma PopFront(
      t: Tree, nTx: seq<nat>, data: seq<bool>, chainTx: seq<nat>, failed: seq<bool>, unlinked: set<(int, int)>,
      queue: seq<int>, c: nat)
    requires Summed(t, nTx, data, chainTx) && |failed| == |t| &&
      Waiting(t, data, chainTx, failed, unlinked, queue, NULL)
    requires Queued(t, data, chainTx, unlinked, queue) && queue != [] && c > 0
    ensures Waiting(t, data, chainTx[queue[0] := c], failed, unlinked, queue[1..], queue[0])
    ensures Queued(t, data, chainTx[queue[0] := c], unlinked, queue[1..])
  {
    var x, after := queue[0], chainTx[queue[0] := c];
    forall i | 0 <= i < |t| && data[i] && after[i] == 0 && i !in queue[1..]
      ensures t[i].prev != NULL && ((t[i].prev, i) in unlinked || failed[t[i].prev])
    {
      assert i !in queue by { assert queue == [x] + queue[1..]; }
    }
  }

  lemma MoveChild(
      t: Tree, data: seq<bool>, chainTx: seq<nat>, failed: seq<bool>, unlinked: set<(int, int)>, queue: seq<int>,
      x: int, i: int)
    requires Linked(t) && |data| == |t| && |chainTx| == |t| && |failed| == |t| && 0 <= x < |t| && chainTx[x] > 0
    requires Waiting(t, data, chainTx, failed, unlinked, queue, x) && Queued(t, data, chainTx, unlinked, queue)
    requires (x, i) in unlinked
    ensures Waiting(t, data, chainTx, failed, unlinked - {(x, i)}, queue + [i], x)
    ensures Queued(t, data, chainTx, unlinked - {(x, i)}, queue + [i])
  {
    forall j | 0 <= j < |t| && data[j] && chainTx[j] == 0 && j !in queue + [i]
      ensures t[j].prev != NULL && ((t[j].prev, j) in unlinked - {(x, i)} || failed[t[j].prev])
    {
      assert i in queue + [i] && (j in queue ==> j in queue + [i]);
    }
  }

  lemma ChildrenDone(
      t: Tree, data: seq<bool>, chainTx: seq<nat>, failed: seq<bool>, unlinked: set<(int, int)>, queue: seq<int>,
      x: int)
    requires Linked(t) && |data| == |t| && |chainTx| == |t| && |failed| == |t|
    requires Waiting(t, data, chainTx, failed, unlinked, queue, x) && forall i :: (x, i) !in unlinked
    ensures Waiting(t, data, chainTx, failed, unlinked, queue, NULL)
  {
  }

  datatype Event = Header(prev: int) | Body(block: int, txs: nat)

  ghost function CountedBlocks(chainTx: seq<nat>): set<int> {
    set i | 0 <= i < |chainTx| && chainTx[i] > 0
  }

  lemma CountedGrows(chainTx: seq<nat>)
    ensures chainTx != [] && chainTx[|chainTx| - 1] == 0 ==>
      CountedBlocks(chainTx) == CountedBlocks(chainTx[..|chainTx| - 1])
  {
  }

  lemma SamePairs(a: set<(int, int)>, b: set<(int, int)>)
    requires forall p, i :: (p, i) in a <==> (p, i) in b
    ensures a == b
  {
    forall x: (int, int) ensures x in a <==> x in b {
      var (p, i) := x;
      assert (p, i) in a <==> (p, i) in b;
    }
  }

  lemma HeaderKept(
      t: Tree, b: Block, nTx: seq<nat>, data: seq<bool>, chainTx: seq<nat>, failed: seq<bool>,
      unlinked: set<(int, int)>)
    requires Summed(t, nTx, data, chainTx) && |failed| == |t| && Waiting(t, data, chainTx, failed, unlinked, [], NULL)
    requires Linked(t + [b])
    ensures Summed(t + [b], nTx + [0], data + [false], chainTx + [0])
    ensures Waiting(t + [b], data + [false], chainTx + [0], failed + [false], unlinked, [], NULL)
  {
    hide Summed, Waiting;
    SumsKept(t, b, nTx, data, chainTx);
    Lengths(t, nTx, data, chainTx);
    ListKept(t, b, data, chainTx, failed, unlinked);
  }

  lemma SumsKept(t: Tree, b: Block, nTx: seq<nat>, data: seq<bool>, chainTx: seq<nat>)
    requires Summed(t, nTx, data, chainTx) && Linked(t + [b])
    ensures Summed(t + [b], nTx + [0], data + [false], chainTx + [0])
  {
    var t', nTx', data', chainTx' := t + [b], nTx + [0], data + [false], chainTx + [0];
    assert Counts(t', nTx', data');
    hide Linked, Counts;
    Parents(t);
    forall i | 0 <= i < |t'| && chainTx'[i] > 0
      ensures SummedAt(t', nTx', data', chainTx', i)
    {
      assert SummedAt(t, nTx, data, chainTx, i);
    }
  }

  lemma Parents(t: Tree)
    requires Linked(t)
    ensures forall i :: 0 <= i < |t| ==> NULL <= t[i].prev < i
  {
  }

  lemma ListKept(t: Tree, b: Block, data: seq<bool>, chainTx: seq<nat>, failed: seq<bool>, unlinked: set<(int, int)>)
    requires Linked(t) && |data| == |chainTx| == |failed| == |t| &&
      Waiting(t, data, chainTx, failed, unlinked, [], NULL)
    requires Linked(t + [b])
    ensures Waiting(t + [b], data + [false], chainTx + [0], failed + [false], unlinked, [], NULL)
  {
    hide Linked;
    Parents(t);
    var t', data', chainTx' := t + [b], data + [false], chainTx + [0];
    forall p, i | (p, i) in unlinked
      ensures 0 <= i < |t'| && p == t'[i].prev && p != NULL && data'[i] && chainTx'[i] == 0 &&
        ParentWaits(t', chainTx', i)
    {
      assert ParentWaits(t, chainTx, i);
    }
  }

  /** A block table: what is known of each block, the blocks waiting for a parent, and the candidates for the tip. */
  class BlockTable {
    var t: Tree
    var nTx: seq<nat>
    var chainTx: seq<nat>
    var data: seq<bool>
    var failed: seq<bool>
    var unlinked: set<(int, int)>
    var candidates: set<int>

    ghost predicate Valid()
      reads this
    {
      Summed(t, nTx, data, chainTx) && |failed| == |t| && Waiting(t, data, chainTx, failed, unlinked, [], NULL)
    }

    constructor ()
      ensures Valid() && t == [] && nTx == [] && chainTx == [] && data == [] && failed == []
      ensures unlinked == {} && candidates == {}
    {
      t, nTx, chainTx, data, failed, unlinked, candidates := [], [], [], [], [], {}, {};
    }

    /** A header arrives: an entry without a body. */
    method AddHeader(prev: int)
      requires Valid() && WellBuilt(t) && NULL <= prev < |t|
      modifies this`t, this`nTx, this`chainTx, this`data, this`failed
      ensures Valid() && WellBuilt(t) && |t| == |old(t)| + 1 && t[..|old(t)|] == old(t) && t[|old(t)|].prev == prev
      ensures nTx == old(nTx) + [0] && chainTx == old(chainTx) + [0] && data == old(data) + [false]
      ensures failed == old(failed) + [false]
    {
      hide Summed, Waiting, Path, Ancestor;
      HeightNonNegative(t, prev);
      TableLengths();
      var height, skip := 0, NULL;
      if prev != NULL {
        height := t[prev].height + 1;
        ghost var steps;
        skip, steps := GetAncestor(t, prev, SkipHeight(height));
      }
      var b := Block(prev, skip, height);
      Grown(t, b);
      HeaderKept(t, b, nTx, data, chainTx, failed, unlinked);
      t, nTx, chainTx, data, failed := t + [b], nTx + [0], chainTx + [0], data + [false], failed + [false];
    }

    /** Headers and bodies arrive in any order; what is unknown, or already there, is ignored. */
    method Run(events: seq<Event>)
      requires Valid() && WellBuilt(t) && NoFailures() && Counted()
      modifies this
      ensures Valid() && WellBuilt(t) && NoFailures() && Counted()
    {
      hide WellBuilt, Summed, Waiting, Linked;
      var k := 0;
      while k < |events|
        invariant Valid() && WellBuilt(t) && NoFailures() && Counted()
      {
        TableLengths();
        match events[k] {
          case Header(prev) =>
            if NULL <= prev < |t| {
              AddHeader(prev);
              CountedGrows(chainTx);
            }
          case Body(i, n) =>
            if 0 <= i < |t| && !data[i] && n > 0 { ReceivedBlockTransactions(i, n); TableLengths(); }
        }
        k := k + 1;
      }
    }

    ghost predicate NoFailures()
      reads this
    {
      forall i :: 0 <= i < |failed| ==> !failed[i]
    }

    /** The candidates are the linked blocks. */
    ghost predicate Counted()
      reads this
    {
      candidates == CountedBlocks(chainTx)
    }

    lemma TableLengths()
      requires Valid()
      ensures |nTx| == |chainTx| == |data| == |failed| == |t|
    {
    }

    /** After any arrivals, starting again from what is stored gives the same counters, list and candidates. */
    method Reload(order: seq<int>) returns (chainTx': seq<nat>, unlinked': set<(int, int)>, candidates': set<int>)
      requires Valid() && NoFailures() && Counted() && ByHeight(t, order)
      ensures chainTx' == chainTx && unlinked' == unlinked && candidates' == candidates
    {
      hide AllData, PathTx, Waiting, SummedAt;
      chainTx', unlinked', candidates' := LoadBlockIndex(t, nTx, data, failed, order);
      CountersExact(t, nTx, data, chainTx, failed, unlinked);
      forall p, i ensures (p, i) in unlinked' <==> (p, i) in unlinked {
      }
      SamePairs(unlinked', unlinked);
    }

    /** The body of a block arrives: it is counted with every waiting descendant, or has to wait itself. */
    method ReceivedBlockTransactions(i: int, n: nat)
      requires Valid() && 0 <= i < |t| && !data[i] && n > 0
      modifies this`nTx, this`chainTx, this`data, this`unlinked, this`candidates
      ensures Valid() && nTx == old(nTx)[i := n] && data == old(data)[i := true]
      ensures candidates == old(candidates) + set j | 0 <= j < |t| && chainTx[j] > 0 && old(chainTx)[j] == 0
      ensures forall j :: 0 <= j < |t| && old(chainTx)[j] > 0 ==> chainTx[j] == old(chainTx)[j]
    {
      hide Linked, Summed, Waiting, Queued;
      Lengths(t, nTx, data, chainTx);
      Arrive(t, nTx, data, chainTx, failed, unlinked, i, n);
      assert chainTx[i := 0] == chainTx;
      nTx := nTx[i := n];
      chainTx := chainTx[i := 0];
      data := data[i := true];
      if t[i].prev == NULL || chainTx[t[i].prev] > 0 {
        LinkQueue(i);
      } else if t[i].prev != NULL && !failed[t[i].prev] {
        unlinked := unlinked + {(t[i].prev, i)};
      }
    }

    method LinkQueue(i: int)
      requires Summed(t, nTx, data, chainTx) && |failed| == |t|
      requires Waiting(t, data, chainTx, failed, unlinked, [i], NULL) && Queued(t, data, chainTx, unlinked, [i])
      modifies this`chainTx, this`unlinked, this`candidates
      ensures Valid()
      ensures candidates == old(candidates) + set j | 0 <= j < |t| && chainTx[j] > 0 && old(chainTx)[j] == 0
      ensures forall j :: 0 <= j < |t| && old(chainTx)[j] > 0 ==> chainTx[j] == old(chainTx)[j]
    {
      hide Linked, Summed, Waiting, Queued;
      Lengths(t, nTx, data, chainTx);
      ghost var was := chainTx;
      var queue := [i];
      while queue != []
        invariant |nTx| == |chainTx| == |data| == |t|
        invariant Summed(t, nTx, data, chainTx)
        invariant Waiting(t, data, chainTx, failed, unlinked, queue, NULL)
        invariant Queued(t, data, chainTx, unlinked, queue)
        invariant forall j :: 0 <= j < |t| && was[j] > 0 ==> chainTx[j] == was[j]
        invariant candidates == old(candidates) + set j | 0 <= j < |t| && chainTx[j] > 0 && was[j] == 0
        decreases |unlinked| + |queue|
      {
        var x := queue[0];
        Front(t, data, chainTx, unlinked, queue);
        var count := (if t[x].prev == NULL then 0 else chainTx[t[x].prev]) + nTx[x];
        CountOne(t, nTx, data, chainTx, x, count);
        PopFront(t, nTx, data, chainTx, failed, unlinked, queue, count);
        queue := queue[1..];
        chainTx := chainTx[x := count];
        candidates := candidates + {x};
        queue := MoveChildren(x, queue);
      }
    }

    /** Moves the blocks waiting for x to the queue. */
    method MoveChildren(x: int, front: seq<int>) returns (queue: seq<int>)
      requires Summed(t, nTx, data, chainTx) && |failed| == |t| && 0 <= x < |t| == |chainTx| && chainTx[x] > 0
      requires Waiting(t, data, chainTx, failed, unlinked, front, x) && Queued(t, data, chainTx, unlinked, front)
      modifies this`unlinked
      ensures Waiting(t, data, chainTx, failed, unlinked, queue, NULL) && Queued(t, data, chainTx, unlinked, queue)
      ensures |unlinked| + |queue| == |old(unlinked)| + |front|
    {
      hide Linked, Summed, Waiting, Queued;
      Lengths(t, nTx, data, chainTx);
      queue := front;
      var children := set pair | pair in unlinked && pair.0 == x;
      while children != {}
        invariant children == set pair | pair in unlinked && pair.0 == x
        invariant Waiting(t, data, chainTx, failed, unlinked, queue, x) && Queued(t, data, chainTx, unlinked, queue)
        invariant |unlinked| + |queue| == |old(unlinked)| + |front|
        decreases children
      {
        var pair :| pair in children;
        MoveChild(t, data, chainTx, failed, unlinked, queue, x, pair.1);
        assert pair == (x, pair.1);
        queue := queue + [pair.1];
        unlinked := unlinked - {pair};
        children := children - {pair};
      }
      forall c ensures (x, c) !in unlinked {
        assert (x, c) in unlinked ==> (x, c) in children;
      }
      ChildrenDone(t, data, chainTx, failed, unlinked, queue, x);
    }
  }

  lemma Lengths(t: Tree, nTx: seq<nat>, data: seq<bool>, chainTx: seq<nat>)
    requires Summed(t, nTx, data, chainTx)
    ensures |nTx| == |data| == |chainTx| == |t| && Linked(t)
    ensures forall i :: 0 <= i < |t| ==> NULL <= t[i].prev < |t|
  {
  }

  lemma Front(t: Tree, data: seq<bool>, chainTx: seq<nat>, unlinked: set<(int, int)>, queue: seq<int>)
    requires Linked(t) && |data| == |t| && |chainTx| == |t| && Queued(t, data, chainTx, unlinked, queue) && queue != []
    ensures
      var x := queue[0];
      0 <= x < |t| && data[x] && chainTx[x] == 0 &&
        (t[x].prev == NULL || (0 <= t[x].prev < |t| && chainTx[t[x].prev] > 0))
  {
  }

  lemma Arrive(
      t: Tree, nTx: seq<nat>, data: seq<bool>, chainTx: seq<nat>, failed: seq<bool>, unlinked: set<(int, int)>,
      i: int, n: nat)
    requires Summed(t, nTx, data, chainTx) && |failed| == |t| && Waiting(t, data, chainTx, failed, unlinked, [], NULL)
    requires 0 <= i < |t| && !data[i] && n > 0
    ensures chainTx[i] == 0
    ensures Summed(t, nTx[i := n], data[i := true], chainTx)
    ensures Waiting(t, data[i := true], chainTx, failed, unlinked, [i], NULL)
    ensures t[i].prev == NULL || chainTx[t[i].prev] > 0 ==> Queued(t, data[i := true], chainTx, unlinked, [i])
    ensures ParentWaits(t, chainTx, i) && !failed[t[i].prev] ==>
      Waiting(t, data[i := true], chainTx, failed, unlinked + {(t[i].prev, i)}, [], NULL)
    ensures ParentWaits(t, chainTx, i) && failed[t[i].prev] ==>
      Waiting(t, data[i := true], chainTx, failed, unlinked, [], NULL)
  {
    assert chainTx[i] > 0 ==> SummedAt(t, nTx, data, chainTx, i);
    var nTx', data' := nTx[i := n], data[i := true];
    assert Counts(t, nTx', data');
    forall j | 0 <= j < |t| && chainTx[j] > 0 ensures SummedAt(t, nTx', data', chainTx, j) {
      assert SummedAt(t, nTx, data, chainTx, j);
    }
  }

  // ---------- the pass at start-up ----------

  /** A listing of all blocks in which no block comes before a lower one. */
  ghost predicate ByHeight(t: Tree, order: seq<int>) {
    (forall k :: 0 <= k < |order| ==> 0 <= order[k] < |t|) &&
    (forall j, k :: 0 <= j < k < |order| ==> order[j] != order[k] && t[order[j]].height <= t[order[k]].height) &&
    (forall i :: 0 <= i < |t| ==> i in order)
  }

  /** The first k blocks of the listing have their final values, and the others nothing yet. */
  ghost predicate Loaded(
      t: Tree, nTx: seq<nat>, data: seq<bool>, chainTx: seq<nat>, unlinked: set<(int, int)>, order: seq<int>, k: nat)
    requires Counts(t, nTx, data) && |chainTx| == |t| && k <= |order| && ByHeight(t, order)
  {
    (forall i :: 0 <= i < |t| ==>
      chainTx[i] == if i in order[..k] && AllData(t, data, i) then PathTx(t, nTx, i) else 0) &&
    (forall p, i :: (p, i) in unlinked <==>
      0 <= i < |t| && i in order[..k] && p == t[i].prev && data[i] && !AllData(t, data, i))
  }

  lemma {:induction false} PathTxPositive(t: Tree, nTx: seq<nat>, data: seq<bool>, i: int)
    requires Counts(t, nTx, data) && 0 <= i < |t| && AllData(t, data, i)
    ensures PathTx(t, nTx, i) > 0
  {
  }

  /** In a listing by height a parent comes first. */
  lemma ParentFirst(t: Tree, order: seq<int>, k: nat)
    requires Linked(t) && ByHeight(t, order) && k < |order| && t[order[k]].prev != NULL
    ensures t[order[k]].prev in order[..k]
  {
    var p := t[order[k]].prev;
    assert 0 <= p < |t| && t[p].height < t[order[k]].height;
    assert p in order;
    var j :| 0 <= j < |order| && order[j] == p;
    assert j < k;
    assert order[..k][j] == p;
  }

  /** Rebuilds the counters, the waiting list and the candidates from what was stored of each block. */
  method LoadBlockIndex(t: Tree, nTx: seq<nat>, data: seq<bool>, failed: seq<bool>, order: seq<int>)
    returns (chainTx: seq<nat>, unlinked: set<(int, int)>, candidates: set<int>)
    requires Counts(t, nTx, data) && |failed| == |t| && ByHeight(t, order)
    ensures |chainTx| == |t|
    ensures forall i :: 0 <= i < |t| ==> chainTx[i] == if AllData(t, data, i) then PathTx(t, nTx, i) else 0
    ensures forall p, i :: (p, i) in unlinked <==> 0 <= i < |t| && p == t[i].prev && data[i] && !AllData(t, data, i)
    ensures candidates == set i | 0 <= i < |t| && !failed[i] && chainTx[i] > 0
  {
    hide AllData, PathTx, Loaded, Linked, ByHeight;
    Parents(t);
    Listed(t, order);
    chainTx, unlinked, candidates := seq(|t|, _ => 0), {}, {};
    var k := 0;
    NothingLoaded(t, nTx, data, chainTx, order);
    while k < |order|
      invariant 0 <= k <= |order| && |chainTx| == |t|
      invariant Loaded(t, nTx, data, chainTx, unlinked, order, k)
      invariant candidates == set i | 0 <= i < |t| && !failed[i] && chainTx[i] > 0
    {
      var i := order[k];
      LoadOne(t, nTx, data, chainTx, unlinked, order, k);
      assert chainTx[i := 0] == chainTx;
      if data[i] {
        if t[i].prev != NULL {
          if chainTx[t[i].prev] > 0 {
            chainTx := chainTx[i := chainTx[t[i].prev] + nTx[i]];
          } else {
            chainTx := chainTx[i := 0];
            unlinked := unlinked + {(t[i].prev, i)};
          }
        } else {
          chainTx := chainTx[i := nTx[i]];
        }
      }
      // A received block is valid up to its transactions, unless it has failed.
      if data[i] && !failed[i] && (chainTx[i] > 0 || t[i].prev == NULL) {
        candidates := candidates + {i};
      }
      k := k + 1;
    }
    AllLoaded(t, nTx, data, chainTx, unlinked, order);
  }

  lemma Listed(t: Tree, order: seq<int>)
    requires ByHeight(t, order)
    ensures forall k :: 0 <= k < |order| ==> 0 <= order[k] < |t|
  {
  }

  lemma NothingLoaded(t: Tree, nTx: seq<nat>, data: seq<bool>, chainTx: seq<nat>, order: seq<int>)
    requires Counts(t, nTx, data) && |chainTx| == |t| && ByHeight(t, order)
    requires forall i :: 0 <= i < |t| ==> chainTx[i] == 0
    ensures Loaded(t, nTx, data, chainTx, {}, order, 0)
  {
  }

  /** What the pass stores for one block. */
  ghost function Next(t: Tree, nTx: seq<nat>, data: seq<bool>, chainTx: seq<nat>, i: int): nat
    requires Counts(t, nTx, data) && |chainTx| == |t| && 0 <= i < |t|
  {
    if !data[i] then 0
    else if t[i].prev == NULL then nTx[i]
    else if chainTx[t[i].prev] > 0 then chainTx[t[i].prev] + nTx[i]
    else 0
  }

  lemma LoadOne(
      t: Tree, nTx: seq<nat>, data: seq<bool>, chainTx: seq<nat>, unlinked: set<(int, int)>, order: seq<int>, k: nat)
    requires Counts(t, nTx, data) && |chainTx| == |t| && ByHeight(t, order) && k < |order|
    requires Loaded(t, nTx, data, chainTx, unlinked, order, k)
    ensures chainTx[order[k]] == 0
    ensures
      var i := order[k];
      var c := Next(t, nTx, data, chainTx, i);
      (data[i] && t[i].prev == NULL ==> c > 0) &&
      Loaded(t, nTx, data, chainTx[i := c],
        if data[i] && c == 0 then unlinked + {(t[i].prev, i)} else unlinked, order, k + 1)
  {
    hide AllData, PathTx, Linked;
    var i := order[k];
    assert order[..k + 1] == order[..k] + [i];
    assert i !in order[..k];
    Unfolded(t, nTx, data, i);
    if t[i].prev != NULL {
      ParentFirst(t, order, k);
      if AllData(t, data, t[i].prev) { PathTxPositive(t, nTx, data, t[i].prev); }
    }
  }

  lemma Unfolded(t: Tree, nTx: seq<nat>, data: seq<bool>, i: int)
    requires Counts(t, nTx, data) && 0 <= i < |t|
    ensures NULL <= t[i].prev < i
    ensures AllData(t, data, i) <==> data[i] && (t[i].prev == NULL || AllData(t, data, t[i].prev))
    ensures PathTx(t, nTx, i) == (if t[i].prev == NULL then 0 else PathTx(t, nTx, t[i].prev)) + nTx[i]
  {
  }

  lemma AllLoaded(
      t: Tree, nTx: seq<nat>, data: seq<bool>, chainTx: seq<nat>, unlinked: set<(int, int)>, order: seq<int>)
    requires Counts(t, nTx, data) && |chainTx| == |t| && ByHeight(t, order)
    requires Loaded(t, nTx, data, chainTx, unlinked, order, |order|)
    ensures forall i :: 0 <= i < |t| ==> chainTx[i] == if AllData(t, data, i) then PathTx(t, nTx, i) else 0
    ensures forall p, i :: (p, i) in unlinked <==> 0 <= i < |t| && p == t[i].prev && data[i] && !AllData(t, data, i)
  {
    hide AllData, PathTx;
    assert order[..|order|] == order;
  }
}
