/** Candidates for the best chain: their order, failed and sound branches, and why the greatest candidate is best. */
module Candidates {
  import opened BlockTree
  import opened ActiveChain
  import opened ArrivalOrder
  import Utxo
  import ChainState

  // ---------- the order of candidates ----------

  /** What decides between two candidates: work, order of arrival, address. */
  datatype Rank = Rank(work: nat, sequence: nat, address: nat)

  /** The comparator: less work, or received later, or at a higher address. */
  predicate Less(a: Rank, b: Rank) {
    if a.work > b.work then false
    else if a.work < b.work then true
    else if a.sequence < b.sequence then false
    else if a.sequence > b.sequence then true
    else if a.address < b.address then false
    else a.address > b.address
  }

  /** a has more work than b; or as much, and came earlier; or came at the same time, and is not at a higher address. */
  predicate NoWorse(a: Rank, b: Rank) {
    || a.work > b.work
    || (a.work == b.work && a.sequence < b.sequence)
    || (a.work == b.work && a.sequence == b.sequence && a.address <= b.address)
  }

  /** The comparator puts a block with more work above one with less, whatever else; then the earlier one above the
      later one; then the one at the lower address. */
  lemma LessIsWork(a: Rank, b: Rank)
    ensures a.work < b.work ==> Less(a, b)
    ensures a.work == b.work && a.sequence > b.sequence ==> Less(a, b)
    ensures a.work == b.work && a.sequence == b.sequence && a.address > b.address ==> Less(a, b)
    ensures Less(a, b) ==> a.work <= b.work
    ensures Less(a, b) <==> !NoWorse(a, b)
  {
  }

  /** The comparator is a strict order, total on blocks at different addresses. */
  lemma LessOrder(a: Rank, b: Rank, c: Rank)
    ensures !(Less(a, b) && Less(b, a))
    ensures Less(a, b) && Less(b, c) ==> Less(a, c)
    ensures a.address != b.address ==> Less(a, b) || Less(b, a)
  {
  }

  ghost predicate Distinct(rank: seq<Rank>) {
    forall i, j :: 0 <= i < j < |rank| ==> rank[i].address != rank[j].address
  }

  predicate AtLeast(rank: seq<Rank>, c: int, b: int)
    requires 0 <= c < |rank| && 0 <= b < |rank|
  {
    b == c || Less(rank[b], rank[c])
  }

  lemma AtLeastIsWork(rank: seq<Rank>, c: int, b: int)
    requires 0 <= c < |rank| && 0 <= b < |rank| && AtLeast(rank, c, b)
    ensures rank[b].work <= rank[c].work
    ensures rank[b].work == rank[c].work ==> rank[c].sequence <= rank[b].sequence
    ensures rank[b].work == rank[c].work && rank[b].sequence == rank[c].sequence ==> rank[c].address <= rank[b].address
  {
  }

  lemma AtLeastTrans(rank: seq<Rank>, a: int, b: int, c: int)
    requires 0 <= a < |rank| && 0 <= b < |rank| && 0 <= c < |rank| && AtLeast(rank, a, b) && AtLeast(rank, b, c)
    ensures AtLeast(rank, a, c)
  {
    LessOrder(rank[c], rank[b], rank[a]);
  }

  // ---------- failed and sound branches ----------

  /** No block from the root to i is marked as failed. */
  ghost predicate Good(t: Tree, failed: seq<bool>, i: int)
    requires Linked(t) && |failed| == |t| && NULL <= i < |t|
    decreases i
  {
    i == NULL || (!failed[i] && Good(t, failed, t[i].prev))
  }

  /** Every block from the root to i would be accepted after its parent. */
  ghost predicate Sound(t: Tree, accepts: int -> bool, i: int)
    requires Linked(t) && NULL <= i < |t|
    decreases i
  {
    i == NULL || (accepts(i) && Sound(t, accepts, t[i].prev))
  }

  /** Only unsound blocks are marked. */
  ghost predicate MarksUnsound(t: Tree, accepts: int -> bool, failed: seq<bool>)
    requires Linked(t) && |failed| == |t|
  {
    forall i :: 0 <= i < |t| && failed[i] ==> !Sound(t, accepts, i)
  }

  lemma {:induction false} SoundIsGood(t: Tree, accepts: int -> bool, failed: seq<bool>, i: int)
    requires Linked(t) && |failed| == |t| && NULL <= i < |t| && MarksUnsound(t, accepts, failed) && Sound(t, accepts, i)
    ensures Good(t, failed, i)
    decreases i
  {
    if i != NULL { SoundIsGood(t, accepts, failed, t[i].prev); }
  }

  lemma {:induction false} GoodAncestor(t: Tree, failed: seq<bool>, a: int, i: int)
    requires Linked(t) && |failed| == |t| && 0 <= i < |t| && IsAncestor(t, a, i) && Good(t, failed, i)
    ensures 0 <= a < |t| && !failed[a] && Good(t, failed, a)
    decreases i
  {
    PathStep(t, i);
    if a != i { GoodAncestor(t, failed, a, t[i].prev); }
  }

  lemma {:induction false} SoundAncestor(t: Tree, accepts: int -> bool, a: int, i: int)
    requires Linked(t) && 0 <= i < |t| && IsAncestor(t, a, i) && Sound(t, accepts, i)
    ensures 0 <= a < |t| && Sound(t, accepts, a)
    decreases i
  {
    PathStep(t, i);
    if a != i { SoundAncestor(t, accepts, a, t[i].prev); }
  }

  /** A block is linked when its counter is nonzero; so are its ancestors. */
  lemma {:induction false} LinkedAncestor(t: Tree, nTx: seq<nat>, data: seq<bool>, chainTx: seq<nat>, a: int, i: int)
    requires Summed(t, nTx, data, chainTx) && 0 <= i < |t| && chainTx[i] > 0 && IsAncestor(t, a, i)
    ensures 0 <= a < |t| && chainTx[a] > 0 && data[a]
    decreases i
  {
    PathStep(t, i);
    assert SummedAt(t, nTx, data, chainTx, i);
    if a != i { LinkedAncestor(t, nTx, data, chainTx, a, t[i].prev); }
  }

  /** Marking only blocks below a marked one changes no verdict. */
  ghost predicate MarksMore(t: Tree, before: seq<bool>, after: seq<bool>)
    requires Linked(t) && |before| == |t|
  {
    |after| == |t| &&
    (forall i :: 0 <= i < |t| && before[i] ==> after[i]) &&
    (forall i :: 0 <= i < |t| && after[i] ==> !Good(t, before, i))
  }

  lemma {:induction false} SameGood(t: Tree, before: seq<bool>, after: seq<bool>, i: int)
    requires Linked(t) && |before| == |t| && MarksMore(t, before, after) && NULL <= i < |t|
    ensures Good(t, after, i) <==> Good(t, before, i)
    decreases i
  {
    if i != NULL { SameGood(t, before, after, t[i].prev); }
  }

  lemma MarksMoreTrans(t: Tree, a: seq<bool>, b: seq<bool>, c: seq<bool>)
    requires Linked(t) && |a| == |t| && MarksMore(t, a, b) && MarksMore(t, b, c)
    ensures MarksMore(t, a, c)
  {
    forall i | 0 <= i < |t| && c[i] ensures !Good(t, a, i) { SameGood(t, a, b, i); }
  }

  lemma StillUnsound(t: Tree, accepts: int -> bool, before: seq<bool>, after: seq<bool>)
    requires Linked(t) && |before| == |t| && MarksMore(t, before, after) && MarksUnsound(t, accepts, before)
    ensures MarksUnsound(t, accepts, after)
  {
    forall i | 0 <= i < |t| && after[i] ensures !Sound(t, accepts, i) {
      if Sound(t, accepts, i) { SoundIsGood(t, accepts, before, i); }
    }
  }

  // ---------- candidates cover every sound block ----------

  /** For every sound linked block some sound candidate is at least as good. */
  ghost predicate Covered(t: Tree, accepts: int -> bool, rank: seq<Rank>, chainTx: seq<nat>, candidates: set<int>)
    requires Linked(t) && |rank| == |chainTx| == |t| && forall c :: c in candidates ==> 0 <= c < |t|
  {
    forall b :: 0 <= b < |t| && chainTx[b] > 0 && Sound(t, accepts, b) ==> CoveredAt(t, accepts, rank, candidates, b)
  }

  ghost predicate CoveredAt(t: Tree, accepts: int -> bool, rank: seq<Rank>, candidates: set<int>, b: int)
    requires Linked(t) && |rank| == |t| && 0 <= b < |t| && forall c :: c in candidates ==> 0 <= c < |t|
  {
    exists c :: c in candidates && Sound(t, accepts, c) && AtLeast(rank, c, b)
  }

  /** Dropping unsound candidates keeps the cover. */
  lemma DropUnsound(
      t: Tree, accepts: int -> bool, rank: seq<Rank>, chainTx: seq<nat>, candidates: set<int>, fewer: set<int>)
    requires Linked(t) && |rank| == |chainTx| == |t| && forall c :: c in candidates ==> 0 <= c < |t|
    requires Covered(t, accepts, rank, chainTx, candidates) && fewer <= candidates
    requires forall c :: c in candidates && c !in fewer ==> !Sound(t, accepts, c)
    ensures Covered(t, accepts, rank, chainTx, fewer)
  {
    forall b | 0 <= b < |t| && chainTx[b] > 0 && Sound(t, accepts, b) ensures CoveredAt(t, accepts, rank, fewer, b) {
      assert CoveredAt(t, accepts, rank, candidates, b);
      var c :| c in candidates && Sound(t, accepts, c) && AtLeast(rank, c, b);
      assert c in fewer;
    }
  }

  /** Dropping candidates worse than a sound linked block keeps the cover. */
  lemma DropWorse(
      t: Tree, accepts: int -> bool, rank: seq<Rank>, chainTx: seq<nat>, candidates: set<int>, fewer: set<int>,
      tip: int)
    requires Linked(t) && |rank| == |chainTx| == |t| && forall c :: c in candidates ==> 0 <= c < |t|
    requires Covered(t, accepts, rank, chainTx, candidates) && fewer <= candidates
    requires 0 <= tip < |t| && chainTx[tip] > 0 && Sound(t, accepts, tip)
    requires forall c :: c in candidates && c !in fewer ==> Less(rank[c], rank[tip])
    ensures Covered(t, accepts, rank, chainTx, fewer) && fewer != {}
  {
    assert CoveredAt(t, accepts, rank, candidates, tip);
    var top :| top in candidates && Sound(t, accepts, top) && AtLeast(rank, top, tip);
    LessOrder(rank[top], rank[tip], rank[tip]);
    assert top in fewer;
    forall b | 0 <= b < |t| && chainTx[b] > 0 && Sound(t, accepts, b) ensures CoveredAt(t, accepts, rank, fewer, b) {
      assert CoveredAt(t, accepts, rank, candidates, b);
      var c :| c in candidates && Sound(t, accepts, c) && AtLeast(rank, c, b);
      if c !in fewer {
        AtLeastTrans(rank, tip, c, b);
        AtLeastTrans(rank, top, tip, b);
      }
    }
  }

  // ---------- the selection ----------

  /** What the node knows of each block. */
  datatype Blocks = Blocks(
    t: Tree, rank: seq<Rank>, nTx: seq<nat>, data: seq<bool>, chainTx: seq<nat>, hash: seq<nat>,
    body: seq<seq<Utxo.Tx>>)
  {
    ghost predicate Valid() {
      WellBuilt(t) && |rank| == |t| && Distinct(rank) && Summed(t, nTx, data, chainTx) && Named() && OneRoot()
    }

    /** Every block has a hash of its own, and its transactions are identified by theirs. */
    ghost predicate Named() {
      && |hash| == |body| == |t|
      && (forall i :: 0 <= i < |t| ==> hash[i] != Utxo.NULL_HASH && Utxo.IdsIdentify(body[i]))
      && (forall i, j :: 0 <= i < j < |t| ==> hash[i] != hash[j])
    }

    /** There is one genesis block, the first entry. */
    ghost predicate OneRoot() {
      forall i :: 0 <= i < |t| && t[i].prev == NULL ==> i == 0
    }

    predicate Has(i: int) { 0 <= i < |t| }

    predicate IsLinked(i: int)
      requires |chainTx| == |t| && Has(i)
    {
      chainTx[i] > 0
    }

    function HashAt(i: int): nat {
      if 0 <= i < |hash| then hash[i] else Utxo.NULL_HASH
    }

    /** The block as the node keeps it. */
    function InfoAt(i: int): ChainState.BlockInfo
      requires Has(i) && |body| == |t|
    {
      ChainState.BlockInfo(HashAt(t[i].prev), if t[i].height > 0 then t[i].height else 0, body[i])
    }

    /** All linked blocks. */
    function LinkedSet(): set<int>
      requires |chainTx| == |t|
    {
      set i | 0 <= i < |t| && chainTx[i] > 0
    }
  }

  ghost predicate StateOk(k: Blocks, accepts: int -> bool, failed: seq<bool>, candidates: set<int>) {
    k.Valid() && |failed| == |k.t| && MarksUnsound(k.t, accepts, failed) &&
    (forall i :: 0 <= i < |k.t| && failed[i] ==> k.IsLinked(i)) &&
    (forall c :: c in candidates ==> k.Has(c) && k.IsLinked(c)) &&
    Covered(k.t, accepts, k.rank, k.chainTx, candidates)
  }

  /** The active chain ends in a sound linked block. */
  ghost predicate TipOk(k: Blocks, accepts: int -> bool, tip: int)
    requires k.Valid()
  {
    NULL <= tip < |k.t| && Sound(k.t, accepts, tip) && (tip != NULL ==> k.IsLinked(tip))
  }

  /** tip is the best of all sound linked blocks, or there is none. */
  ghost predicate IsBest(k: Blocks, accepts: int -> bool, tip: int)
    requires k.Valid() && TipOk(k, accepts, tip)
  {
    forall b :: k.Has(b) && k.IsLinked(b) && Sound(k.t, accepts, b) ==> tip != NULL && AtLeast(k.rank, tip, b)
  }

  /** Among all sound linked blocks, tip has the most work; of those with as much, it came first; and of those that
      came at the same time, it has the lowest address. */
  ghost predicate MostWork(k: Blocks, accepts: int -> bool, tip: int)
    requires k.Valid() && TipOk(k, accepts, tip)
  {
    forall b :: k.Has(b) && k.IsLinked(b) && Sound(k.t, accepts, b) ==>
      && tip != NULL && k.rank[b].work <= k.rank[tip].work
      && (k.rank[b].work == k.rank[tip].work ==>
            && k.rank[tip].sequence <= k.rank[b].sequence
            && (k.rank[b].sequence == k.rank[tip].sequence ==> k.rank[tip].address <= k.rank[b].address))
  }

  lemma BestHasMostWork(k: Blocks, accepts: int -> bool, tip: int)
    requires k.Valid() && TipOk(k, accepts, tip) && IsBest(k, accepts, tip)
    ensures MostWork(k, accepts, tip)
  {
    hide Less, AtLeast, Sound;
    forall b | k.Has(b) && k.IsLinked(b) && Sound(k.t, accepts, b)
      ensures
        && tip != NULL && k.rank[b].work <= k.rank[tip].work
        && (k.rank[b].work == k.rank[tip].work ==>
              && k.rank[tip].sequence <= k.rank[b].sequence
              && (k.rank[b].sequence == k.rank[tip].sequence ==> k.rank[tip].address <= k.rank[b].address))
    {
      AtLeastIsWork(k.rank, tip, b);
    }
  }

  lemma Sizes(k: Blocks)
    requires k.Valid()
    ensures Linked(k.t) && |k.rank| == |k.nTx| == |k.data| == |k.chainTx| == |k.hash| == |k.body| == |k.t|
    ensures forall i :: 0 <= i < |k.t| ==> NULL <= k.t[i].prev < i
  {
  }

  lemma StateFacts(k: Blocks, accepts: int -> bool, failed: seq<bool>, candidates: set<int>)
    requires StateOk(k, accepts, failed, candidates)
    ensures k.Valid() && MarksUnsound(k.t, accepts, failed)
    ensures Linked(k.t) && |k.rank| == |k.nTx| == |k.data| == |k.chainTx| == |failed| == |k.t| && Distinct(k.rank)
    ensures forall i :: 0 <= i < |k.t| ==> NULL <= k.t[i].prev < i
    ensures forall c :: c in candidates ==> k.Has(c) && k.IsLinked(c)
  {
  }

  lemma StateLengths(k: Blocks, accepts: int -> bool, failed: seq<bool>, candidates: set<int>)
    requires StateOk(k, accepts, failed, candidates)
    ensures k.Valid() && Linked(k.t) && |k.rank| == |failed| == |k.t|
  {
  }

  lemma Fewer(a: set<int>, b: set<int>, x: int)
    requires a <= b && x in b && x !in a
    ensures |a| < |b|
  {
    assert b == a + (b - a) && x in b - a;
    assert |b| == |a| + |b - a|;
  }

  // ---------- the blocks of a branch above a height ----------

  ghost predicate Above(t: Tree, top: int, height: int, i: int)
    requires Linked(t) && NULL <= top < |t|
  {
    0 <= i < |t| && t[i].height > height && IsAncestor(t, i, top)
  }

  lemma NoneAbove(t: Tree, top: int)
    requires Linked(t) && 0 <= top < |t|
    ensures forall i :: !Above(t, top, t[top].height, i)
  {
    hide Path, Linked;
    TipOnPath(t, top);
    forall i
      ensures !Above(t, top, t[top].height, i)
    {
      AncestorAt(t, i, top);
    }
  }

  /** One block of the branch has each height. */
  lemma AboveStep(t: Tree, top: int, x: int)
    requires Linked(t) && 0 <= top < |t| && 0 <= x < |t| && IsAncestor(t, x, top)
    ensures forall i :: Above(t, top, t[x].height - 1, i) <==> Above(t, top, t[x].height, i) || i == x
  {
    hide Path, Linked;
    AncestorAt(t, x, top);
    forall i
      ensures Above(t, top, t[x].height - 1, i) <==> Above(t, top, t[x].height, i) || i == x
    {
      AncestorAt(t, i, top);
    }
  }

  lemma AboveSelf(t: Tree, bad: int, top: int)
    requires Linked(t) && 0 <= top < |t| && IsAncestor(t, bad, top)
    ensures 0 <= bad < |t| && Above(t, top, t[bad].height - 1, top)
  {
    hide Path, Linked;
    AncestorAt(t, bad, top);
    TipOnPath(t, top);
  }

  /** What lies on the branch from a failed block up is not good, and not sound. */
  lemma BranchBad(k: Blocks, accepts: int -> bool, failed: seq<bool>, top: int, bad: int, i: int)
    requires k.Valid() && |failed| == |k.t| && MarksUnsound(k.t, accepts, failed) && k.Has(top) && k.IsLinked(top)
    requires k.Has(bad) && IsAncestor(k.t, bad, top) && failed[bad] && Above(k.t, top, k.t[bad].height - 1, i)
    ensures 0 <= i < |k.t| && !Good(k.t, failed, i) && !Sound(k.t, accepts, i) && k.IsLinked(i)
  {
    hide Path, Good, Sound, Linked, SkipsRight, Distinct, Blocks.Named, Blocks.OneRoot;
    AncestorsBelow(k.t, bad, i, top);
    LinkedAncestor(k.t, k.nTx, k.data, k.chainTx, i, top);
    if Good(k.t, failed, i) { GoodAncestor(k.t, failed, bad, i); }
    NotGoodUnsound(k.t, accepts, failed, i);
  }

  /** The blocks of the branch above a height have been marked, and taken off the candidates. */
  ghost predicate Marked(t: Tree, before: seq<bool>, after: seq<bool>, top: int, height: int)
    requires Linked(t) && |before| == |t| && NULL <= top < |t|
  {
    |after| == |t| && forall i :: 0 <= i < |t| ==> (after[i] <==> before[i] || Above(t, top, height, i))
  }

  ghost predicate TakenOff(t: Tree, before: set<int>, after: set<int>, top: int, height: int)
    requires Linked(t) && NULL <= top < |t|
  {
    after <= before && forall c :: c in before ==> (c in after <==> !Above(t, top, height, c))
  }

  lemma NothingMarked(t: Tree, failed: seq<bool>, candidates: set<int>, top: int)
    requires Linked(t) && |failed| == |t| && 0 <= top < |t|
    ensures Marked(t, failed, failed, top, t[top].height) && TakenOff(t, candidates, candidates, top, t[top].height)
  {
    hide Above, Linked;
    NoneAbove(t, top);
  }

  lemma MarkOne(t: Tree, before: seq<bool>, after: seq<bool>, had: set<int>, has: set<int>, top: int, x: int)
    requires Linked(t) && |before| == |t| && 0 <= top < |t| && 0 <= x < |t| && IsAncestor(t, x, top)
    requires Marked(t, before, after, top, t[x].height) && TakenOff(t, had, has, top, t[x].height)
    ensures Marked(t, before, after[x := true], top, t[x].height - 1)
    ensures TakenOff(t, had, has - {x}, top, t[x].height - 1)
  {
    hide Above, Linked, IsAncestor;
    AboveStep(t, top, x);
  }

  /** From a failed block up, a branch is not good, and not sound. */
  ghost predicate BadBranch(k: Blocks, accepts: int -> bool, failed: seq<bool>, top: int, height: int)
    requires k.Valid() && |failed| == |k.t| && NULL <= top < |k.t|
  {
    forall i :: Above(k.t, top, height, i) ==> !Good(k.t, failed, i) && !Sound(k.t, accepts, i) && k.IsLinked(i)
  }

  lemma BranchMarks(k: Blocks, accepts: int -> bool, failed: seq<bool>, failed': seq<bool>, top: int, height: int)
    requires k.Valid() && |failed| == |k.t| && NULL <= top < |k.t| && BadBranch(k, accepts, failed, top, height - 1)
    requires MarksUnsound(k.t, accepts, failed) && forall i :: 0 <= i < |k.t| && failed[i] ==> k.IsLinked(i)
    requires Marked(k.t, failed, failed', top, height)
    ensures |failed'| == |k.t| && MarksMore(k.t, failed, failed') && MarksUnsound(k.t, accepts, failed')
    ensures forall i :: 0 <= i < |k.t| && failed'[i] ==> k.IsLinked(i)
  {
    hide Good, Sound, IsAncestor, Blocks.Valid, Linked;
    Sizes(k);
    forall i | 0 <= i < |k.t| && failed'[i]
      ensures !Good(k.t, failed, i) && k.IsLinked(i)
    {
      if failed[i] {
        GoodStep(k.t, failed, i);
      } else {
        assert Above(k.t, top, height - 1, i);
      }
    }
    StillUnsound(k.t, accepts, failed, failed');
  }

  /** A branch with a failed block was marked from there up, and taken off the candidates. */
  lemma BranchDropped(
    k: Blocks, accepts: int -> bool, failed: seq<bool>, candidates: set<int>, failed': seq<bool>, candidates': set<int>,
    top: int, bad: int)
    requires StateOk(k, accepts, failed, candidates) && k.Has(top) && k.IsLinked(top)
    requires k.Has(bad) && IsAncestor(k.t, bad, top) && failed[bad]
    requires Marked(k.t, failed, failed', top, k.t[bad].height)
    requires TakenOff(k.t, candidates, candidates', top, k.t[bad].height - 1)
    ensures StateOk(k, accepts, failed', candidates') && Dropped(k.t, failed, candidates, failed', candidates')
    ensures candidates' <= candidates && top !in candidates'
  {
    hide Blocks.Valid, Good, Sound, Linked, IsAncestor, Covered, Above, Blocks.IsLinked, MarksMore;
    hide MarksUnsound, Marked;
    hide BadBranch, TakenOff;
    StateFacts(k, accepts, failed, candidates);
    BranchIsBad(k, accepts, failed, top, bad);
    BranchMarks(k, accepts, failed, failed', top, k.t[bad].height);
    AboveSelf(k.t, bad, top);
    BranchOff(k, accepts, failed, candidates, candidates', top, k.t[bad].height - 1);
    DropUnsound(k.t, accepts, k.rank, k.chainTx, candidates, candidates');
  }

  lemma BranchIsBad(k: Blocks, accepts: int -> bool, failed: seq<bool>, top: int, bad: int)
    requires k.Valid() && |failed| == |k.t| && MarksUnsound(k.t, accepts, failed) && k.Has(top) && k.IsLinked(top)
    requires k.Has(bad) && IsAncestor(k.t, bad, top) && failed[bad]
    ensures BadBranch(k, accepts, failed, top, k.t[bad].height - 1)
  {
    hide Blocks.Valid, Good, Sound, Linked, IsAncestor, Above, Blocks.IsLinked, MarksUnsound;
    Sizes(k);
    forall i | Above(k.t, top, k.t[bad].height - 1, i)
      ensures 0 <= i < |k.t| && !Good(k.t, failed, i) && !Sound(k.t, accepts, i) && k.IsLinked(i)
    {
      BranchBad(k, accepts, failed, top, bad, i);
    }
  }

  lemma BranchOff(
    k: Blocks, accepts: int -> bool, failed: seq<bool>, candidates: set<int>, candidates': set<int>, top: int,
    height: int)
    requires k.Valid() && |failed| == |k.t| && NULL <= top < |k.t| && BadBranch(k, accepts, failed, top, height)
    requires TakenOff(k.t, candidates, candidates', top, height) && forall c :: c in candidates ==> k.Has(c)
    ensures candidates' <= candidates && (Above(k.t, top, height, top) ==> top !in candidates')
    ensures forall c :: c in candidates && c !in candidates' ==>
      0 <= c < |k.t| && !Sound(k.t, accepts, c) && !Good(k.t, failed, c)
  {
    hide Blocks.Valid, Good, Sound, Linked, IsAncestor, Above, Blocks.IsLinked;
  }

  /** One step from the top of a branch toward a block on it. */
  lemma BranchStep(t: Tree, bad: int, top: int, x: int)
    requires Linked(t) && 0 <= top < |t| && 0 <= x < |t| && IsAncestor(t, bad, x) && IsAncestor(t, x, top) && x != bad
    ensures 0 <= bad <= t[x].prev < x && t[t[x].prev].height == t[x].height - 1
    ensures IsAncestor(t, bad, t[x].prev) && IsAncestor(t, t[x].prev, top)
  {
    hide Linked, Path, IsAncestor;
    AboveParent(t, bad, x);
    ParentOnPath(t, top, x);
  }

  lemma BranchStart(t: Tree, bad: int, top: int)
    requires Linked(t) && 0 <= top < |t| && IsAncestor(t, bad, top)
    ensures 0 <= bad <= top && IsAncestor(t, top, top)
  {
    hide Linked, Path;
    AncestorAt(t, bad, top);
    SelfAncestor(t, top);
  }

  // ---------- places on the target's branch ----------

  /** The block of a path at a height, or NULL below the root. */
  function OnBranch(p: seq<int>, h: int): int {
    if 0 <= h < |p| then p[h] else NULL
  }

  function WorkOf(k: Blocks, i: int): int {
    if 0 <= i < |k.rank| then k.rank[i].work else -1
  }

  ghost predicate IsBatch(t: Tree, most: int, base: int, top: int, list: seq<int>)
    requires Linked(t) && 0 <= most < |t|
  {
    -1 <= base < top < |Path(t, most)| && |list| == top - base &&
    forall j :: 0 <= j < |list| ==> list[j] == Path(t, most)[top - j]
  }

  /** The list goes down the branch from top, and iter comes next. */
  ghost predicate Collected(t: Tree, most: int, top: int, list: seq<int>, iter: int)
    requires Linked(t) && 0 <= most < |t|
  {
    0 <= top < |Path(t, most)| && |list| <= top + 1 && NULL <= iter < |t| &&
      iter == OnBranch(Path(t, most), top - |list|) &&
    forall j :: 0 <= j < |list| ==> list[j] == Path(t, most)[top - j]
  }

  lemma StartCollecting(t: Tree, most: int, top: int)
    requires Linked(t) && 0 <= most < |t|
    requires (HeightNonNegative(t, most); 0 <= top <= t[most].height)
    ensures Collected(t, most, top, [], Ancestor(t, most, top))
  {
    hide Path;
    AncestorOnPath(t, most, top);
  }

  lemma CollectOne(t: Tree, most: int, base: int, top: int, list: seq<int>, iter: int)
    requires Linked(t) && 0 <= most < |t| && Collected(t, most, top, list, iter) && iter != NULL
    requires -1 <= base && |list| <= top - base && t[iter].height != base && 0 <= iter < |t|
    ensures |list| < top - base && NULL <= t[iter].prev < |t| && Collected(t, most, top, list + [iter], t[iter].prev)
  {
    hide Path, Linked, IsAncestor;
    BranchParent(t, most, top - |list|);
  }

  lemma AllCollected(t: Tree, most: int, base: int, top: int, list: seq<int>, iter: int)
    requires Linked(t) && 0 <= most < |t| && Collected(t, most, top, list, iter)
    requires -1 <= base < top && |list| <= top - base && (iter == NULL || t[iter].height == base)
    ensures IsBatch(t, most, base, top, list)
  {
    hide Path, Linked, IsAncestor;
    if top >= |list| { BranchParent(t, most, top - |list|); }
  }

  lemma BatchSize(t: Tree, most: int, base: int, top: int, list: seq<int>)
    requires Linked(t) && 0 <= most < |t| && IsBatch(t, most, base, top, list)
    ensures |list| == top - base
  {
  }

  lemma NoAncestors(t: Tree)
    requires Linked(t)
    ensures forall a :: !IsAncestor(t, a, NULL)
  {
    NoPath(t);
  }

  lemma BranchParent(t: Tree, most: int, h: int)
    requires Linked(t) && 0 <= most < |t| && 0 <= h < |Path(t, most)|
    ensures
      var x := Path(t, most)[h];
      0 <= x < |t| && t[x].height == h && NULL <= t[x].prev < x && t[x].prev == OnBranch(Path(t, most), h - 1) &&
      IsAncestor(t, x, most)
  {
    hide Path, Linked;
    PathHeights(t, most);
    var x := Path(t, most)[h];
    assert IsAncestor(t, x, most);
    ParentOnPath(t, most, x);
    AncestorAt(t, t[x].prev, most);
  }

  lemma BranchTop(t: Tree, most: int)
    requires Linked(t) && 0 <= most < |t|
    ensures OnBranch(Path(t, most), t[most].height) == most
  {
    TipOnPath(t, most);
  }

  lemma BatchBlock(k: Blocks, failed: seq<bool>, most: int, base: int, top: int, list: seq<int>, j: int)
    requires k.Valid() && |failed| == |k.t| && k.Has(most) && k.IsLinked(most) && Good(k.t, failed, most)
    requires IsBatch(k.t, most, base, top, list) && 0 <= j < |list|
    ensures
      var b := list[j];
      k.Has(b) && k.IsLinked(b) && !failed[b] && b == OnBranch(Path(k.t, most), top - j) &&
      k.t[b].prev == OnBranch(Path(k.t, most), top - j - 1)
  {
    hide Path, Good, Linked, SkipsRight, IsAncestor;
    BranchParent(k.t, most, top - j);
    GoodAncestor(k.t, failed, list[j], most);
    LinkedAncestor(k.t, k.nTx, k.data, k.chainTx, list[j], most);
  }

  /** Both branches start at the one genesis block, so there is a fork. */
  lemma ForkExists(k: Blocks, fork: int, most: int, tip: int)
    requires k.Valid() && k.Has(most) && k.Has(tip) && HighestCommon(k.t, fork, most, tip)
    ensures fork != NULL
  {
    hide Blocks.Named, SkipsRight, Summed;
    RootFirst(k, most);
    RootFirst(k, tip);
    assert Common(k.t, 0, most, tip);
  }

  lemma {:induction false} RootFirst(k: Blocks, i: int)
    requires k.Valid() && k.Has(i)
    ensures IsAncestor(k.t, 0, i)
    decreases i
  {
    hide Blocks.Named, SkipsRight, Summed, Distinct;
    PathStep(k.t, i);
    assert Path(k.t, i)[|Path(k.t, i)| - 1] == i;
    if k.t[i].prev != NULL { RootFirst(k, k.t[i].prev); }
  }

  /** A block with another block below it on its path is not the genesis block. */
  lemma AboveFork(t: Tree, fork: int, tip: int)
    requires Linked(t) && NULL <= tip < |t| && IsAncestor(t, fork, tip) && fork != tip
    ensures 0 <= tip && 0 <= fork && t[tip].height > 0
  {
    hide Path, Linked;
    NoPath(t);
    AncestorAt(t, fork, tip);
    TipOnPath(t, tip);
  }

  lemma ForkPlace(k: Blocks, accepts: int -> bool, fork: int, most: int, tip: int)
    requires k.Valid() && k.Has(most) && NULL <= tip < |k.t| && HighestCommon(k.t, fork, most, tip)
    ensures fork == NULL <==> tip == NULL
    ensures fork != NULL ==>
      k.Has(fork) && IsAncestor(k.t, fork, tip) && 0 <= k.t[fork].height <= k.t[most].height &&
      OnBranch(Path(k.t, most), k.t[fork].height) == fork
    ensures k.t[most].height >= 0 && OnBranch(Path(k.t, most), -1) == NULL
  {
    hide Path, SkipsRight, Summed, Distinct, Blocks.Named, Blocks.OneRoot, Linked;
    TipOnPath(k.t, most);
    NoAncestors(k.t);
    if fork != NULL { AncestorAt(k.t, fork, most); }
    if tip != NULL { ForkExists(k, fork, most, tip); }
  }

  lemma TipFacts(k: Blocks, accepts: int -> bool, tip: int)
    requires k.Valid() && TipOk(k, accepts, tip)
    ensures NULL <= tip < |k.t|
  {
  }

  // ---------- why the selection ends, and where ----------

  ghost function Unmarked(failed: seq<bool>): nat {
    if failed == [] then 0 else Unmarked(failed[..|failed| - 1]) + if failed[|failed| - 1] then 0 else 1
  }

  lemma {:induction false} UnmarkedLess(a: seq<bool>, b: seq<bool>)
    requires |a| == |b| && forall i :: 0 <= i < |a| && a[i] ==> b[i]
    ensures Unmarked(b) <= Unmarked(a)
    ensures (exists i :: 0 <= i < |a| && b[i] && !a[i]) ==> Unmarked(b) < Unmarked(a)
    decreases |a|
  {
    if a != [] {
      var n := |a| - 1;
      UnmarkedLess(a[..n], b[..n]);
      if i :| 0 <= i < |a| && b[i] && !a[i] {
        if i < n { assert b[..n][i] && !a[..n][i]; }
      }
    }
  }

  lemma FewerUnmarked(t: Tree, before: seq<bool>, after: seq<bool>)
    requires Linked(t) && |before| == |t| && exists c, c' :: Dropped(t, before, c, after, c')
    ensures Unmarked(after) <= Unmarked(before)
  {
    var c, c' :| Dropped(t, before, c, after, c');
    UnmarkedLess(before, after);
  }

  /** Marks are only added. */
  ghost predicate KeepsMarks(before: seq<bool>, after: seq<bool>) {
    |after| == |before| && forall i :: 0 <= i < |before| && before[i] ==> after[i]
  }

  lemma DroppedKeeps(t: Tree, before: seq<bool>, c: set<int>, after: seq<bool>, c': set<int>)
    requires Linked(t) && Dropped(t, before, c, after, c')
    ensures KeepsMarks(before, after)
  {
  }

  lemma OneMoreKeeps(k: Blocks, before: seq<bool>, after: seq<bool>)
    requires OneMore(k, before, after)
    ensures KeepsMarks(before, after)
  {
  }

  lemma SameMarks(failed: seq<bool>)
    ensures KeepsMarks(failed, failed)
  {
  }

  lemma KeepsMarksTrans(a: seq<bool>, b: seq<bool>, c: seq<bool>)
    requires KeepsMarks(a, b) && KeepsMarks(b, c)
    ensures KeepsMarks(a, c)
  {
  }

  /** Exactly one more block is marked. */
  ghost predicate OneMore(k: Blocks, before: seq<bool>, after: seq<bool>) {
    |before| == |k.t| && exists b :: k.Has(b) && !before[b] && after == before[b := true]
  }

  lemma OneMoreMark(k: Blocks, before: seq<bool>, after: seq<bool>)
    requires OneMore(k, before, after)
    ensures Unmarked(after) < Unmarked(before)
  {
    var b :| k.Has(b) && !before[b] && after == before[b := true];
    assert after[b] && !before[b];
    UnmarkedLess(before, after);
  }

  ghost function MaxWork(rank: seq<Rank>): (m: int)
    ensures m >= -1
  {
    if rank == [] then -1
    else
      var m, w := MaxWork(rank[..|rank| - 1]), rank[|rank| - 1].work;
      if w > m then w else m
  }

  lemma {:induction false} MaxWorkIs(rank: seq<Rank>, i: int)
    requires 0 <= i < |rank|
    ensures rank[i].work <= MaxWork(rank)
    decreases |rank|
  {
    if i < |rank| - 1 { MaxWorkIs(rank[..|rank| - 1], i); }
  }

  lemma WorkBound(k: Blocks, tip: int)
    ensures -1 <= WorkOf(k, tip) <= MaxWork(k.rank)
  {
    if 0 <= tip < |k.rank| { MaxWorkIs(k.rank, tip); }
  }

  /** The greatest unfailed candidate is the best sound block, if the chain gets there. */
  lemma GreatestIsBest(k: Blocks, accepts: int -> bool, failed: seq<bool>, candidates: set<int>, most: int, tip: int)
    requires StateOk(k, accepts, failed, candidates) && TipOk(k, accepts, tip)
    requires most == NULL ==> forall c :: c !in candidates
    requires most != NULL ==> most in candidates && forall c :: c in candidates ==> AtLeast(k.rank, most, c)
    ensures most == NULL ==> tip == NULL && IsBest(k, accepts, tip)
    ensures most != NULL ==> AtLeastAll(k, accepts, most)
  {
    hide Sound, AtLeast, Linked;
    forall b | k.Has(b) && k.IsLinked(b) && Sound(k.t, accepts, b)
      ensures most != NULL && AtLeast(k.rank, most, b)
    {
      assert CoveredAt(k.t, accepts, k.rank, candidates, b);
      var c :| c in candidates && Sound(k.t, accepts, c) && AtLeast(k.rank, c, b);
      AtLeastTrans(k.rank, most, c, b);
    }
  }

  ghost predicate AtLeastAll(k: Blocks, accepts: int -> bool, i: int)
    requires k.Valid() && k.Has(i)
  {
    forall b :: k.Has(b) && k.IsLinked(b) && Sound(k.t, accepts, b) ==> AtLeast(k.rank, i, b)
  }

  lemma BestTarget(k: Blocks, accepts: int -> bool, tip: int)
    requires k.Valid() && k.Has(tip) && AtLeastAll(k, accepts, tip) && TipOk(k, accepts, tip)
    ensures IsBest(k, accepts, tip)
  {
  }

  lemma NoneWorse(rank: seq<Rank>, candidates: set<int>, least: int, tip: int)
    requires 0 <= least < |rank| && 0 <= tip < |rank| && !Less(rank[least], rank[tip])
    requires forall c :: c in candidates ==> 0 <= c < |rank| && AtLeast(rank, c, least)
    ensures forall c :: c in candidates ==> !Less(rank[c], rank[tip])
  {
    forall c | c in candidates ensures !Less(rank[c], rank[tip]) {
      LessOrder(rank[least], rank[c], rank[tip]);
    }
  }

  lemma PruneKeeps(k: Blocks, accepts: int -> bool, failed: seq<bool>, candidates: set<int>, fewer: set<int>, tip: int)
    requires StateOk(k, accepts, failed, candidates) && TipOk(k, accepts, tip) && tip != NULL && fewer <= candidates
    requires forall c :: c in candidates && c !in fewer ==> Less(k.rank[c], k.rank[tip])
    ensures StateOk(k, accepts, failed, fewer) && exists c :: c in fewer
  {
    hide Covered, Sound, Less;
    DropWorse(k.t, accepts, k.rank, k.chainTx, candidates, fewer, tip);
  }

  /** Marking a block that is not accepted. */
  lemma RejectKeeps(k: Blocks, accepts: int -> bool, failed: seq<bool>, candidates: set<int>, i: int)
    requires StateOk(k, accepts, failed, candidates) && k.Has(i) && k.IsLinked(i) && !accepts(i)
    ensures StateOk(k, accepts, failed[i := true], candidates - {i})
  {
    SoundStep(k.t, accepts, i);
    hide Covered, Sound;
    DropUnsound(k.t, accepts, k.rank, k.chainTx, candidates, candidates - {i});
  }

  lemma SoundStep(t: Tree, accepts: int -> bool, i: int)
    requires Linked(t) && 0 <= i < |t|
    ensures NULL <= t[i].prev < i && (Sound(t, accepts, i) <==> accepts(i) && Sound(t, accepts, t[i].prev))
  {
  }

  lemma ParentTip(k: Blocks, accepts: int -> bool, tip: int)
    requires k.Valid() && TipOk(k, accepts, tip) && tip != NULL
    ensures NULL <= k.t[tip].prev < tip && TipOk(k, accepts, k.t[tip].prev)
  {
    SoundStep(k.t, accepts, tip);
    assert SummedAt(k.t, k.nTx, k.data, k.chainTx, tip);
  }

  /** Only candidates with a failed block on their branch are dropped, and only blocks on such branches are marked. */
  ghost predicate Dropped(t: Tree, failed: seq<bool>, candidates: set<int>, failed': seq<bool>, candidates': set<int>)
    requires Linked(t)
  {
    |failed| == |t| && MarksMore(t, failed, failed') && candidates' <= candidates &&
    forall c :: c in candidates && c !in candidates' ==> 0 <= c < |t| && !Good(t, failed, c)
  }

  lemma NoneDropped(t: Tree, failed: seq<bool>, candidates: set<int>)
    requires Linked(t) && |failed| == |t|
    ensures Dropped(t, failed, candidates, failed, candidates)
  {
  }

  lemma DroppedMore(t: Tree, f: seq<bool>, c: set<int>, f': seq<bool>, c': set<int>, f'': seq<bool>, c'': set<int>)
    requires Linked(t) && Dropped(t, f, c, f', c') && Dropped(t, f', c', f'', c'')
    ensures Dropped(t, f, c, f'', c'')
  {
    hide Good, Linked;
    MarksMoreTrans(t, f, f', f'');
    forall x | x in c && x !in c'' ensures 0 <= x < |t| && !Good(t, f, x) {
      if x in c' { SameGood(t, f, f', x); }
    }
  }

  lemma GoodStep(t: Tree, failed: seq<bool>, i: int)
    requires Linked(t) && |failed| == |t| && 0 <= i < |t|
    ensures Good(t, failed, i) <==> !failed[i] && Good(t, failed, t[i].prev)
  {
  }

  /** Blocks of the active chain, and what lies below them, have not failed. */
  lemma ChainGood(k: Blocks, accepts: int -> bool, failed: seq<bool>, tip: int, i: int)
    requires k.Valid() && |failed| == |k.t| && MarksUnsound(k.t, accepts, failed) && TipOk(k, accepts, tip)
    requires NULL <= i < |k.t| && (i != NULL ==> IsAncestor(k.t, i, tip))
    ensures Good(k.t, failed, i)
  {
    if i != NULL {
      SoundAncestor(k.t, accepts, i, tip);
      SoundIsGood(k.t, accepts, failed, i);
    }
  }

  lemma AboveParent(t: Tree, a: int, i: int)
    requires Linked(t) && 0 <= i < |t| && IsAncestor(t, a, i) && a != i
    ensures 0 <= a <= t[i].prev && IsAncestor(t, a, t[i].prev)
  {
    PathStep(t, i);
    AncestorAt(t, a, t[i].prev);
  }

  lemma NotGoodUnsound(t: Tree, accepts: int -> bool, failed: seq<bool>, i: int)
    requires Linked(t) && |failed| == |t| && 0 <= i < |t| && MarksUnsound(t, accepts, failed) && !Good(t, failed, i)
    ensures !Sound(t, accepts, i)
  {
    if Sound(t, accepts, i) { SoundIsGood(t, accepts, failed, i); }
  }
}
