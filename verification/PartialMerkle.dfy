/** Partial Merkle trees (BIP 37): a depth-first encoding of the part of a block's Merkle tree that
    proves the presence of some transactions. */
module PartialMerkle {
  import opened LimbMath

  /** A 256-bit hash; zero is the null hash. */
  type Digest = nat

  const NULL: Digest := 0

  /** The hash of a pair of digests. */
  type PairHash = (Digest, Digest) -> Digest

  const MAX_BLOCK_SIZE := 1000000

  ghost predicate Injective(H: PairHash) {
    forall a, b, c, d :: H(a, b) == H(c, d) ==> a == c && b == d
  }

  lemma SamePair(H: PairHash, a: Digest, b: Digest, c: Digest, d: Digest)
    requires Injective(H) && H(a, b) == H(c, d)
    ensures a == c && b == d
  {
  }

  // ---------- the shape of the tree ----------

  /** CalcTreeWidth: the number of nodes at a height. */
  function Width(n: nat, height: nat): nat {
    (n + Pow2(height) - 1) / Pow2(height)
  }

  /** The first leaf below a node. */
  function First(height: nat, pos: nat): nat {
    pos * Pow2(height)
  }

  /** A position exists at a height exactly if its first leaf does. */
  lemma WidthIff(n: nat, height: nat, pos: nat)
    ensures pos < Width(n, height) <==> First(height, pos) < n
  {
    var p := Pow2(height);
    var w := Width(n, height);
    assert n + p - 1 == w * p + (n + p - 1) % p;
    if pos < w {
      assert (pos + 1) * p <= w * p by { MulLe(pos + 1, w, p); }
      assert (pos + 1) * p == pos * p + p;
    } else {
      assert w * p <= pos * p by { MulLe(w, pos, p); }
    }
  }

  /** The children of a node share its leaves. */
  lemma ChildFirst(height: nat, pos: nat)
    requires height > 0
    ensures First(height - 1, pos * 2) == First(height, pos)
    ensures First(height - 1, pos * 2 + 1) == First(height, pos) + Pow2(height - 1)
    ensures Pow2(height) == 2 * Pow2(height - 1)
  {
    var p := Pow2(height - 1);
    assert pos * 2 * p == pos * (2 * p);
    assert (pos * 2 + 1) * p == pos * 2 * p + p;
  }

  /** The height of the root. */
  function RootHeight(n: nat, h: nat): (r: nat)
    ensures r >= h && Width(n, r) <= 1
    ensures forall k :: h <= k < r ==> Width(n, k) > 1
    decreases if n > Pow2(h) then n - Pow2(h) else 0
  {
    if Width(n, h) <= 1 then h
    else
      WidthIff(n, h, 1);
      RootHeight(n, h + 1)
  }

  method TreeHeight(n: nat) returns (h: nat)
    ensures h == RootHeight(n, 0)
  {
    h := 0;
    while Width(n, h) > 1
      invariant RootHeight(n, h) == RootHeight(n, 0)
      decreases if n > Pow2(h) then n - Pow2(h) else 0
    {
      WidthIff(n, h, 1);
      h := h + 1;
    }
  }

  /** The root covers every leaf. */
  lemma RootCovers(n: nat)
    ensures n <= Pow2(RootHeight(n, 0))
    ensures First(RootHeight(n, 0), 0) == 0
  {
    WidthIff(n, RootHeight(n, 0), 1);
  }

  // ---------- the full tree ----------

  /** CalcHash: the hash of a node; a missing right child repeats the left one. */
  function CalcHash(H: PairHash, txids: seq<Digest>, height: nat, pos: nat): Digest
    requires First(height, pos) < |txids|
    decreases height
  {
    if height == 0 then txids[pos]
    else
      ChildFirst(height, pos);
      WidthIff(|txids|, height - 1, pos * 2 + 1);
      var left := CalcHash(H, txids, height - 1, pos * 2);
      var right := if pos * 2 + 1 < Width(|txids|, height - 1) then CalcHash(H, txids, height - 1, pos * 2 + 1)
        else left;
      H(left, right)
  }

  function MerkleRoot(H: PairHash, txids: seq<Digest>): Digest
    requires txids != []
  {
    RootCovers(|txids|);
    CalcHash(H, txids, RootHeight(|txids|, 0), 0)
  }

  /** The next row of the tree, as the block computes it: neighbours are hashed together, and the last one with
      itself if it has no neighbour. */
  function RowAbove(H: PairHash, row: seq<Digest>): (r: seq<Digest>)
    ensures |r| == (|row| + 1) / 2
    ensures forall i :: 0 <= i < |r| ==>
      r[i] == H(row[2 * i], row[if 2 * i + 1 < |row| then 2 * i + 1 else |row| - 1])
  {
    seq((|row| + 1) / 2, i requires 0 <= i < (|row| + 1) / 2 =>
      H(row[2 * i], row[if 2 * i + 1 < |row| then 2 * i + 1 else |row| - 1]))
  }

  /** Row after row, until one hash is left. */
  function RowRoot(H: PairHash, row: seq<Digest>): Digest
    requires row != []
    decreases |row|
  {
    if |row| == 1 then row[0] else RowRoot(H, RowAbove(H, row))
  }

  ghost function Row(H: PairHash, txids: seq<Digest>, height: nat): seq<Digest> {
    if height == 0 then txids else RowAbove(H, Row(H, txids, height - 1))
  }

  ghost predicate IsNode(H: PairHash, txids: seq<Digest>, height: nat, row: seq<Digest>, pos: nat) {
    First(height, pos) < |txids| && pos < |row| && row[pos] == CalcHash(H, txids, height, pos)
  }

  ghost predicate IsRow(H: PairHash, txids: seq<Digest>, height: nat, row: seq<Digest>) {
    |row| == Width(|txids|, height) && forall pos: nat :: pos < |row| ==> IsNode(H, txids, height, row, pos)
  }

  /** Node by node or row by row, the hashes are the same. */
  lemma {:induction false} CalcHashIsRow(H: PairHash, txids: seq<Digest>, height: nat)
    ensures IsRow(H, txids, height, Row(H, txids, height))
    decreases height
  {
    hide Width, First, IsNode, RowAbove;
    var row := Row(H, txids, height);
    if height == 0 {
      LeafRow(H, txids);
    } else {
      CalcHashIsRow(H, txids, height - 1);
      WidthHalves(|txids|, height);
      forall pos: nat | pos < |row|
        ensures IsNode(H, txids, height, row, pos)
      {
        RowStep(H, txids, height, Row(H, txids, height - 1), pos);
      }
    }
  }

  lemma LeafRow(H: PairHash, txids: seq<Digest>)
    ensures IsRow(H, txids, 0, txids)
  {
    forall pos: nat | pos < |txids|
      ensures IsNode(H, txids, 0, txids, pos)
    {
      assert First(0, pos) == pos;
    }
  }

  lemma RowStep(H: PairHash, txids: seq<Digest>, height: nat, row: seq<Digest>, pos: nat)
    requires height > 0 && IsRow(H, txids, height - 1, row) && pos < (|row| + 1) / 2
    ensures IsNode(H, txids, height, RowAbove(H, row), pos)
  {
    ChildFirst(height, pos);
    hide First, Width;
    assert IsNode(H, txids, height - 1, row, pos * 2);
    if pos * 2 + 1 < |row| { assert IsNode(H, txids, height - 1, row, pos * 2 + 1); }
    assert pos * 2 == 2 * pos;
  }

  lemma WidthHalves(n: nat, height: nat)
    requires height > 0
    ensures Width(n, height) == (Width(n, height - 1) + 1) / 2
  {
    var a, b := Width(n, height), (Width(n, height - 1) + 1) / 2;
    if a < b {
      WidthIff(n, height, a);
      ChildFirst(height, a);
      WidthIff(n, height - 1, 2 * a);
    }
    if b < a {
      WidthIff(n, height, b);
      ChildFirst(height, b);
      WidthIff(n, height - 1, 2 * b);
    }
  }

  /** The root that the partial tree is checked against is the one that the block computes. */
  lemma MerkleRootIsRows(H: PairHash, txids: seq<Digest>)
    requires txids != []
    ensures MerkleRoot(H, txids) == RowRoot(H, txids)
  {
    RootCovers(|txids|);
    RowsUp(H, txids, 0);
    assert Row(H, txids, 0) == txids;
  }

  lemma {:induction false} RowsUp(H: PairHash, txids: seq<Digest>, height: nat)
    requires txids != [] && height <= RootHeight(|txids|, 0)
    ensures Row(H, txids, height) != [] && RowRoot(H, Row(H, txids, height)) == MerkleRoot(H, txids)
    decreases RootHeight(|txids|, 0) - height
  {
    hide Width, First, IsRow, RowAbove, RootHeight, MerkleRoot;
    RowSize(H, txids, height);
    if height < RootHeight(|txids|, 0) {
      RowsUp(H, txids, height + 1);
    }
  }

  /** A row is not empty, and has one hash only at the top: the root. */
  lemma RowSize(H: PairHash, txids: seq<Digest>, height: nat)
    requires txids != [] && height <= RootHeight(|txids|, 0)
    ensures var row := Row(H, txids, height); row != [] && (|row| == 1 <==> height == RootHeight(|txids|, 0))
    ensures height == RootHeight(|txids|, 0) ==> Row(H, txids, height)[0] == MerkleRoot(H, txids)
  {
    hide Width, First, Row, CalcHash;
    CalcHashIsRow(H, txids, height);
    WidthIff(|txids|, height, 0);
    FirstZero(height);
    RootCovers(|txids|);
    assert IsNode(H, txids, height, Row(H, txids, height), 0);
  }

  lemma FirstZero(height: nat)
    ensures First(height, 0) == 0
  {
  }

  /** Distinct leaves make distinct siblings. */
  lemma {:induction false} SiblingsDiffer(H: PairHash, txids: seq<Digest>, height: nat, p: nat, q: nat)
    requires Injective(H) && p < q
    requires First(height, p) < |txids| && First(height, q) < |txids|
    requires forall i, j :: 0 <= i < j < |txids| ==> txids[i] != txids[j]
    ensures CalcHash(H, txids, height, p) != CalcHash(H, txids, height, q)
    decreases height
  {
    if height == 0 {
      assert First(0, p) == p && First(0, q) == q;
    } else {
      ChildFirst(height, p);
      ChildFirst(height, q);
      hide Width, First, Pow2;
      SiblingsDiffer(H, txids, height - 1, p * 2, q * 2);
    }
  }

  // ---------- building ----------

  /** Whether a leaf in [lo, hi) is matched. */
  predicate AnyMatch(mask: seq<bool>, lo: nat, hi: nat) {
    exists p :: lo <= p < hi && p < |mask| && mask[p]
  }

  /** TraverseAndBuild: the bits and hashes that a subtree contributes. */
  function Build(H: PairHash, txids: seq<Digest>, mask: seq<bool>, height: nat, pos: nat): (seq<bool>, seq<Digest>)
    requires |mask| == |txids| && First(height, pos) < |txids|
    decreases height
  {
    var parent := AnyMatch(mask, First(height, pos), First(height, pos) + Pow2(height));
    if height == 0 || !parent then ([parent], [CalcHash(H, txids, height, pos)])
    else
      ChildFirst(height, pos);
      WidthIff(|txids|, height - 1, pos * 2 + 1);
      var (bl, hl) := Build(H, txids, mask, height - 1, pos * 2);
      var (br, hr) := if pos * 2 + 1 < Width(|txids|, height - 1)
                      then Build(H, txids, mask, height - 1, pos * 2 + 1) else ([], []);
      ([true] + bl + br, hl + hr)
  }

  /** The encoding of a whole block. */
  function Encode(H: PairHash, txids: seq<Digest>, mask: seq<bool>): (seq<bool>, seq<Digest>)
    requires txids != [] && |mask| == |txids|
  {
    RootCovers(|txids|);
    Build(H, txids, mask, RootHeight(|txids|, 0), 0)
  }

  /** The matched transactions among the leaves in [lo, hi), in order. */
  function Selected(txids: seq<Digest>, mask: seq<bool>, lo: nat, hi: nat): seq<Digest>
    requires |mask| == |txids|
    decreases hi - lo
  {
    if lo >= hi || lo >= |txids| then []
    else (if mask[lo] then [txids[lo]] else []) + Selected(txids, mask, lo + 1, hi)
  }

  /** Without a match the encoding is one bit and the root; with all of them it is all bits and all transactions. */
  lemma EncodeExtremes(H: PairHash, txids: seq<Digest>, mask: seq<bool>)
    requires txids != [] && |mask| == |txids|
    ensures (forall p :: 0 <= p < |mask| ==> !mask[p]) ==> Encode(H, txids, mask) == ([false], [MerkleRoot(H, txids)])
    ensures (forall p :: 0 <= p < |mask| ==> mask[p]) ==>
      var (bits, hashes) := Encode(H, txids, mask);
      hashes == txids && forall i :: 0 <= i < |bits| ==> bits[i]
  {
    var h := RootHeight(|txids|, 0);
    RootCovers(|txids|);
    if forall p :: 0 <= p < |mask| ==> mask[p] {
      BuildAll(H, txids, mask, h, 0);
    }
  }

  ghost function Upto(n: nat, k: nat): nat { if k < n then k else n }

  lemma {:induction false} BuildAll(H: PairHash, txids: seq<Digest>, mask: seq<bool>, height: nat, pos: nat)
    requires |mask| == |txids| && First(height, pos) < |txids| && forall p :: 0 <= p < |mask| ==> mask[p]
    ensures Build(H, txids, mask, height, pos).1 ==
      txids[First(height, pos)..Upto(|txids|, First(height, pos) + Pow2(height))]
    ensures
      var bits := Build(H, txids, mask, height, pos).0;
      forall i :: 0 <= i < |bits| ==> bits[i]
    decreases height
  {
    hide AnyMatch, First, Build, CalcHash, Width, Pow2;
    var lo := First(height, pos);
    MatchedAt(mask, lo, Pow2(height));
    if height == 0 {
      BuildStops(H, txids, mask, 0, pos);
      LeafHash(H, txids, pos);
    } else {
      var two := BuildNode(H, txids, mask, height, pos);
      BuildAll(H, txids, mask, height - 1, pos * 2);
      if two { BuildAll(H, txids, mask, height - 1, pos * 2 + 1); }
    }
  }

  lemma MatchedAt(mask: seq<bool>, lo: nat, n: nat)
    requires lo < |mask| && mask[lo] && n >= 1
    ensures AnyMatch(mask, lo, lo + n)
  {
    assert mask[lo];
  }

  lemma LeafHash(H: PairHash, txids: seq<Digest>, pos: nat)
    requires First(0, pos) < |txids|
    ensures First(0, pos) == pos && Pow2(0) == 1 && CalcHash(H, txids, 0, pos) == txids[pos]
  {
  }

  // ---------- extracting ----------

  /** Progress through the encoded bits and hashes. */
  datatype Cursor = Cursor(nBitsUsed: nat, nHashUsed: nat, vMatch: seq<Digest>, fBad: bool)

  /** TraverseAndExtract. */
  function Extract(
      H: PairHash, n: nat, vBits: seq<bool>, vHash: seq<Digest>, height: nat, pos: nat, c: Cursor): (Digest, Cursor)
    decreases height
  {
    if c.nBitsUsed >= |vBits| then (NULL, c.(fBad := true))
    else
      var parent := vBits[c.nBitsUsed];
      var c1 := c.(nBitsUsed := c.nBitsUsed + 1);
      if height == 0 || !parent then
        if c.nHashUsed >= |vHash| then (NULL, c1.(fBad := true))
        else
          var hash := vHash[c.nHashUsed];
          var c2 := c1.(nHashUsed := c.nHashUsed + 1);
          (hash, if height == 0 && parent then c2.(vMatch := c2.vMatch + [hash]) else c2)
      else
        var (left, cl) := Extract(H, n, vBits, vHash, height - 1, pos * 2, c1);
        if pos * 2 + 1 < Width(n, height - 1) then
          var (right, cr) := Extract(H, n, vBits, vHash, height - 1, pos * 2 + 1, cl);
          (H(left, right), if right == left then cr.(fBad := true) else cr)
        else (H(left, left), cl)
  }

  /** ExtractMatches: the Merkle root and the matched transactions, or the null hash. */
  function Extracted(H: PairHash, n: nat, vBits: seq<bool>, vHash: seq<Digest>): (Digest, seq<Digest>) {
    if n == 0 || n > MAX_BLOCK_SIZE / 60 || |vHash| > n || |vBits| < |vHash| then (NULL, [])
    else
      var (root, c) := Extract(H, n, vBits, vHash, RootHeight(n, 0), 0, Cursor(0, 0, [], false));
      if c.fBad || (c.nBitsUsed + 7) / 8 != (|vBits| + 7) / 8 || c.nHashUsed != |vHash| then (NULL, c.vMatch)
      else (root, c.vMatch)
  }

  // ---------- soundness ----------

  /** Trouble is never forgotten, bits and hashes are used in order, and matches are only added, at most one for
      each hash used. */
  ghost predicate Later(c: Cursor, c': Cursor) {
    && (c.fBad ==> c'.fBad) && c.nBitsUsed <= c'.nBitsUsed && c.nHashUsed <= c'.nHashUsed
    && c.vMatch <= c'.vMatch && |c'.vMatch| - |c.vMatch| <= c'.nHashUsed - c.nHashUsed
  }

  /** Extraction only moves forward. */
  lemma {:induction false} ExtractGrows(
      H: PairHash, n: nat, vBits: seq<bool>, vHash: seq<Digest>, height: nat, pos: nat, c: Cursor)
    ensures Later(c, Extract(H, n, vBits, vHash, height, pos, c).1)
    decreases height
  {
    if c.nBitsUsed < |vBits| && height > 0 && vBits[c.nBitsUsed] {
      var c1 := c.(nBitsUsed := c.nBitsUsed + 1);
      ExtractGrows(H, n, vBits, vHash, height - 1, pos * 2, c1);
      var cl := Extract(H, n, vBits, vHash, height - 1, pos * 2, c1).1;
      ExtractGrows(H, n, vBits, vHash, height - 1, pos * 2 + 1, cl);
    }
  }

  /** What is extracted does not depend on an earlier failure. */
  lemma {:induction false} ExtractAfterFailure(
    H: PairHash, n: nat, vBits: seq<bool>, vHash: seq<Digest>, height: nat, pos: nat, c: Cursor)
    ensures
      var (hash, c') := Extract(H, n, vBits, vHash, height, pos, c.(fBad := false));
      Extract(H, n, vBits, vHash, height, pos, c.(fBad := true)) == (hash, c'.(fBad := true))
    decreases height
  {
    hide Width;
    if c.nBitsUsed < |vBits| && height > 0 && vBits[c.nBitsUsed] {
      var c1 := c.(nBitsUsed := c.nBitsUsed + 1);
      ExtractAfterFailure(H, n, vBits, vHash, height - 1, pos * 2, c1);
      var cl := Extract(H, n, vBits, vHash, height - 1, pos * 2, c1.(fBad := false)).1;
      ExtractAfterFailure(H, n, vBits, vHash, height - 1, pos * 2 + 1, cl);
      var left := cl.(fBad := true);
      ExtractGrows(H, n, vBits, vHash, height - 1, pos * 2 + 1, left);
    }
  }

  /** The digests are those of transactions at increasing positions in [lo, hi). */
  ghost predicate AtPositions(txids: seq<Digest>, found: seq<Digest>, ps: seq<nat>, lo: nat, hi: nat) {
    && |ps| == |found|
    && (forall i :: 0 <= i < |ps| ==> lo <= ps[i] < hi && ps[i] < |txids| && found[i] == txids[ps[i]])
    && (forall i, j :: 0 <= i < j < |ps| ==> ps[i] < ps[j])
  }

  lemma PositionsWiden(txids: seq<Digest>, found: seq<Digest>, ps: seq<nat>, lo: nat, mid: nat, hi: nat)
    requires AtPositions(txids, found, ps, lo, mid) && mid <= hi
    ensures AtPositions(txids, found, ps, lo, hi)
  {
  }

  lemma JoinPositions(
      txids: seq<Digest>, fl: seq<Digest>, pl: seq<nat>, fr: seq<Digest>, pr: seq<nat>, lo: nat, mid: nat, hi: nat)
    requires AtPositions(txids, fl, pl, lo, mid) && AtPositions(txids, fr, pr, mid, hi) && lo <= mid <= hi
    ensures AtPositions(txids, fl + fr, pl + pr, lo, hi)
  {
  }

  /** The claimed number of transactions is the block's, or the block has no two equal ones. */
  ghost predicate Comparable(txids: seq<Digest>, n: nat) {
    n == |txids| || forall i, j :: 0 <= i < j < |txids| ==> txids[i] != txids[j]
  }

  /** Whatever the bits and hashes are, and whatever number n of transactions is claimed: if the traversal of a
      subtree computes the true hash of the node, then what it matched are transactions of the block below that
      node, in order.  A claimed right child that the block does not have makes two equal children. */
  lemma {:induction false} ExtractSound(
      H: PairHash, txids: seq<Digest>, n: nat, vBits: seq<bool>, vHash: seq<Digest>, height: nat, pos: nat, c: Cursor)
      returns (found: seq<Digest>, ps: seq<nat>)
    requires Injective(H) && First(height, pos) < |txids| && Comparable(txids, n)
    requires
      var (hash, c') := Extract(H, n, vBits, vHash, height, pos, c);
      !c'.fBad && hash == CalcHash(H, txids, height, pos)
    ensures Extract(H, n, vBits, vHash, height, pos, c).1.vMatch == c.vMatch + found
    ensures AtPositions(txids, found, ps, First(height, pos), First(height, pos) + Pow2(height))
    decreases height
  {
    hide First, Pow2, Width, AtPositions, Injective, Extract, CalcHash, Comparable;
    if c.nBitsUsed >= |vBits| || height == 0 || !vBits[c.nBitsUsed] {
      found, ps := LeafSound(H, txids, n, vBits, vHash, height, pos, c);
    } else {
      var c1 := c.(nBitsUsed := c.nBitsUsed + 1);
      var lo, mid, hi := First(height, pos), First(height - 1, pos * 2 + 1), First(height, pos) + Pow2(height);
      var two := ExtractNode(H, txids, n, vBits, vHash, height, pos, c);
      var cl := Extract(H, n, vBits, vHash, height - 1, pos * 2, c1).1;
      if two {
        ExtractGrows(H, n, vBits, vHash, height - 1, pos * 2 + 1, cl);
        var fl, pl := ExtractSound(H, txids, n, vBits, vHash, height - 1, pos * 2, c1);
        var fr, pr := ExtractSound(H, txids, n, vBits, vHash, height - 1, pos * 2 + 1, cl);
        found, ps := fl + fr, pl + pr;
        JoinPositions(txids, fl, pl, fr, pr, lo, mid, hi);
        assert c.vMatch + fl + fr == c.vMatch + (fl + fr);
      } else {
        found, ps := ExtractSound(H, txids, n, vBits, vHash, height - 1, pos * 2, c1);
        PositionsWiden(txids, found, ps, lo, mid, hi);
      }
    }
  }

  lemma LeafSound(
      H: PairHash, txids: seq<Digest>, n: nat, vBits: seq<bool>, vHash: seq<Digest>, height: nat, pos: nat, c: Cursor)
      returns (found: seq<Digest>, ps: seq<nat>)
    requires First(height, pos) < |txids|
    requires c.nBitsUsed >= |vBits| || height == 0 || !vBits[c.nBitsUsed]
    requires
      var (hash, c') := Extract(H, n, vBits, vHash, height, pos, c);
      !c'.fBad && hash == CalcHash(H, txids, height, pos)
    ensures Extract(H, n, vBits, vHash, height, pos, c).1.vMatch == c.vMatch + found
    ensures AtPositions(txids, found, ps, First(height, pos), First(height, pos) + Pow2(height))
  {
    if height == 0 && vBits[c.nBitsUsed] {
      found, ps := [vHash[c.nHashUsed]], [pos];
    } else {
      found, ps := [], [];
    }
  }

  /** One inner node of the traversal: the claimed children are the true ones, one or two. */
  lemma ExtractNode(
      H: PairHash, txids: seq<Digest>, n: nat, vBits: seq<bool>, vHash: seq<Digest>, height: nat, pos: nat, c: Cursor)
      returns (two: bool)
    requires Injective(H) && height > 0 && First(height, pos) < |txids| && Comparable(txids, n)
    requires c.nBitsUsed < |vBits| && vBits[c.nBitsUsed]
    requires
      var (hash, c') := Extract(H, n, vBits, vHash, height, pos, c);
      !c'.fBad && hash == CalcHash(H, txids, height, pos)
    ensures First(height - 1, pos * 2) == First(height, pos)
    ensures First(height - 1, pos * 2 + 1) == First(height, pos) + Pow2(height - 1)
    ensures First(height, pos) + Pow2(height) == First(height - 1, pos * 2 + 1) + Pow2(height - 1)
    ensures two <==> First(height - 1, pos * 2 + 1) < |txids|
    ensures
      var c1 := c.(nBitsUsed := c.nBitsUsed + 1);
      var c' := Extract(H, n, vBits, vHash, height, pos, c).1;
      var (left, cl) := Extract(H, n, vBits, vHash, height - 1, pos * 2, c1);
      && left == CalcHash(H, txids, height - 1, pos * 2)
      && if two then
           var (right, cr) := Extract(H, n, vBits, vHash, height - 1, pos * 2 + 1, cl);
           right == CalcHash(H, txids, height - 1, pos * 2 + 1) && c' == cr
         else c' == cl
  {
    ChildFirst(height, pos);
    WidthIff(|txids|, height - 1, pos * 2 + 1);
    hide First, Pow2, Width, Comparable, Injective;
    two := pos * 2 + 1 < Width(|txids|, height - 1);
    var (left, cl) := Extract(H, n, vBits, vHash, height - 1, pos * 2, c.(nBitsUsed := c.nBitsUsed + 1));
    var l := CalcHash(H, txids, height - 1, pos * 2);
    if pos * 2 + 1 < Width(n, height - 1) {
      var right := Extract(H, n, vBits, vHash, height - 1, pos * 2 + 1, cl).0;
      SamePair(H, left, right, l, if two then CalcHash(H, txids, height - 1, pos * 2 + 1) else l);
    } else {
      SamePair(H, left, left, l, if two then CalcHash(H, txids, height - 1, pos * 2 + 1) else l);
      if two { TwinsDiffer(H, txids, n, height, pos); }
    }
  }

  /** Where the claimed number leaves out a child that is there, its hash differs from its sibling's. */
  lemma TwinsDiffer(H: PairHash, txids: seq<Digest>, n: nat, height: nat, pos: nat)
    requires Injective(H) && Comparable(txids, n) && height > 0 && First(height, pos) < |txids|
    requires First(height - 1, pos * 2) < |txids| && First(height - 1, pos * 2 + 1) < |txids|
    requires pos * 2 + 1 >= Width(n, height - 1)
    ensures CalcHash(H, txids, height - 1, pos * 2) != CalcHash(H, txids, height - 1, pos * 2 + 1)
  {
    WidthIff(n, height - 1, pos * 2 + 1);
    hide First, Pow2, Width, Injective;
    SiblingsDiffer(H, txids, height - 1, pos * 2, pos * 2 + 1);
  }

  /** Soundness: no encoding, however it was made and whatever number of transactions it claims, can produce the
      block's own Merkle root, from a tree of the same height, together with a transaction that is not in the
      block. */
  lemma ExtractMatchesSound(H: PairHash, txids: seq<Digest>, n: nat, vBits: seq<bool>, vHash: seq<Digest>)
      returns (ps: seq<nat>)
    requires Injective(H) && txids != [] && MerkleRoot(H, txids) != NULL
    requires Comparable(txids, n) && RootHeight(n, 0) == RootHeight(|txids|, 0)
    requires Extracted(H, n, vBits, vHash).0 == MerkleRoot(H, txids)
    ensures AtPositions(txids, Extracted(H, n, vBits, vHash).1, ps, 0, |txids|)
  {
    var h := RootHeight(|txids|, 0);
    RootCovers(|txids|);
    hide Extract, CalcHash, RootHeight, Injective, Comparable;
    var found, ps' := ExtractSound(H, txids, n, vBits, vHash, h, 0, Cursor(0, 0, [], false));
    assert [] + found == found;
    ps := ps';
  }

  // ---------- nothing may be left over ----------

  /** A traversal that went well does not look beyond the bits and hashes it used. */
  lemma {:induction false} ExtractMore(
      H: PairHash, n: nat, vBits: seq<bool>, vHash: seq<Digest>, bits: seq<bool>, hashes: seq<Digest>, height: nat,
      pos: nat, c: Cursor)
    requires !Extract(H, n, vBits, vHash, height, pos, c).1.fBad
    ensures
      Extract(H, n, vBits + bits, vHash + hashes, height, pos, c) == Extract(H, n, vBits, vHash, height, pos, c)
    decreases height
  {
    hide Width;
    if c.nBitsUsed < |vBits| && height > 0 && vBits[c.nBitsUsed] {
      var c1 := c.(nBitsUsed := c.nBitsUsed + 1);
      var cl := Extract(H, n, vBits, vHash, height - 1, pos * 2, c1).1;
      ExtractGrows(H, n, vBits, vHash, height - 1, pos * 2 + 1, cl);
      ExtractMore(H, n, vBits, vHash, bits, hashes, height - 1, pos * 2, c1);
      if pos * 2 + 1 < Width(n, height - 1) {
        ExtractMore(H, n, vBits, vHash, bits, hashes, height - 1, pos * 2 + 1, cl);
      }
    }
  }

  /** If an encoding gives a root, then with any more hashes it is refused, and with more bits unless these stay
      within the last byte: then they are padding and change nothing. */
  lemma RefusesLeftover(
      H: PairHash, n: nat, vBits: seq<bool>, vHash: seq<Digest>, bits: seq<bool>, hashes: seq<Digest>)
    requires Extracted(H, n, vBits, vHash).0 != NULL
    ensures hashes != [] ==> Extracted(H, n, vBits + bits, vHash + hashes).0 == NULL
    ensures |bits| >= 8 ==> Extracted(H, n, vBits + bits, vHash + hashes).0 == NULL
    ensures hashes == [] ==>
      if (|vBits| + |bits| + 7) / 8 == (|vBits| + 7) / 8
      then Extracted(H, n, vBits + bits, vHash + hashes) == Extracted(H, n, vBits, vHash)
      else Extracted(H, n, vBits + bits, vHash + hashes).0 == NULL
  {
    hide Extract, RootHeight;
    ExtractMore(H, n, vBits, vHash, bits, hashes, RootHeight(n, 0), 0, Cursor(0, 0, [], false));
  }

  /** No root without transactions, for more than fit into a block, with more hashes than transactions, or with
      fewer bits than hashes; and no matches either. */
  lemma RefusesSizes(H: PairHash, n: nat, vBits: seq<bool>, vHash: seq<Digest>)
    requires n == 0 || n > 16_666 || |vHash| > n || |vBits| < |vHash|
    ensures Extracted(H, n, vBits, vHash) == (NULL, [])
  {
  }

  // ---------- completeness ----------

  /** One inner node of the traversal for the block's own number of transactions, with one child or two. */
  lemma HonestNode(
      H: PairHash, txids: seq<Digest>, vBits: seq<bool>, vHash: seq<Digest>, height: nat, pos: nat, c: Cursor)
      returns (two: bool)
    requires height > 0 && First(height, pos) < |txids|
    requires c.nBitsUsed < |vBits| && vBits[c.nBitsUsed]
    ensures First(height - 1, pos * 2) == First(height, pos)
    ensures First(height - 1, pos * 2 + 1) == First(height, pos) + Pow2(height - 1)
    ensures First(height, pos) + Pow2(height) == First(height - 1, pos * 2 + 1) + Pow2(height - 1)
    ensures two <==> First(height - 1, pos * 2 + 1) < |txids|
    ensures
      var c1 := c.(nBitsUsed := c.nBitsUsed + 1);
      var (hash, c') := Extract(H, |txids|, vBits, vHash, height, pos, c);
      var (left, cl) := Extract(H, |txids|, vBits, vHash, height - 1, pos * 2, c1);
      if two then
        var (right, cr) := Extract(H, |txids|, vBits, vHash, height - 1, pos * 2 + 1, cl);
        && hash == H(left, right)
        && c' == (if right == left then cr.(fBad := true) else cr)
        && CalcHash(H, txids, height, pos) ==
             H(CalcHash(H, txids, height - 1, pos * 2), CalcHash(H, txids, height - 1, pos * 2 + 1))
      else
        var l := CalcHash(H, txids, height - 1, pos * 2);
        hash == H(left, left) && c' == cl && CalcHash(H, txids, height, pos) == H(l, l)
  {
    ChildFirst(height, pos);
    WidthIff(|txids|, height - 1, pos * 2 + 1);
    two := pos * 2 + 1 < Width(|txids|, height - 1);
  }

  lemma {:induction false} SelectedNone(txids: seq<Digest>, mask: seq<bool>, lo: nat, hi: nat)
    requires |mask| == |txids|
    ensures AnyMatch(mask, lo, hi) <==> Selected(txids, mask, lo, hi) != []
    decreases hi - lo
  {
    if lo < hi && lo < |txids| {
      SelectedNone(txids, mask, lo + 1, hi);
    }
  }

  lemma {:induction false} SelectedSplit(txids: seq<Digest>, mask: seq<bool>, lo: nat, mid: nat, hi: nat)
    requires |mask| == |txids| && lo <= mid <= hi
    ensures Selected(txids, mask, lo, hi) == Selected(txids, mask, lo, mid) + Selected(txids, mask, mid, hi)
    decreases mid - lo
  {
    if lo < mid && lo < |txids| {
      SelectedSplit(txids, mask, lo + 1, mid, hi);
    }
  }

  /** One inner node of the encoding. */
  lemma BuildNode(H: PairHash, txids: seq<Digest>, mask: seq<bool>, height: nat, pos: nat) returns (two: bool)
    requires |mask| == |txids| && height > 0 && First(height, pos) < |txids|
    requires AnyMatch(mask, First(height, pos), First(height, pos) + Pow2(height))
    ensures First(height - 1, pos * 2) == First(height, pos)
    ensures First(height - 1, pos * 2 + 1) == First(height, pos) + Pow2(height - 1)
    ensures First(height, pos) + Pow2(height) == First(height - 1, pos * 2 + 1) + Pow2(height - 1)
    ensures two <==> First(height - 1, pos * 2 + 1) < |txids|
    ensures
      var (bl, hl) := Build(H, txids, mask, height - 1, pos * 2);
      if two then
        var (br, hr) := Build(H, txids, mask, height - 1, pos * 2 + 1);
        Build(H, txids, mask, height, pos) == ([true] + bl + br, hl + hr)
      else Build(H, txids, mask, height, pos) == ([true] + bl, hl)
  {
    ChildFirst(height, pos);
    WidthIff(|txids|, height - 1, pos * 2 + 1);
    two := pos * 2 + 1 < Width(|txids|, height - 1);
    var (bl, hl) := Build(H, txids, mask, height - 1, pos * 2);
    assert [true] + bl + [] == [true] + bl && hl + [] == hl;
  }

  lemma BuildLeaf(H: PairHash, txids: seq<Digest>, mask: seq<bool>, height: nat, pos: nat)
    requires |mask| == |txids| && First(height, pos) < |txids|
    requires height == 0 || !AnyMatch(mask, First(height, pos), First(height, pos) + Pow2(height))
    ensures
      var sel := Selected(txids, mask, First(height, pos), First(height, pos) + Pow2(height));
      && Build(H, txids, mask, height, pos) == ([sel != []], [CalcHash(H, txids, height, pos)])
      && (height == 0 ==> sel == [] || sel == [CalcHash(H, txids, height, pos)])
      && (height > 0 ==> sel == [])
  {
    hide Build, Selected, AnyMatch, First, CalcHash, Pow2;
    SelectedNone(txids, mask, First(height, pos), First(height, pos) + Pow2(height));
    BuildStops(H, txids, mask, height, pos);
    if height == 0 { OneSelected(H, txids, mask, pos); }
  }

  lemma OneSelected(H: PairHash, txids: seq<Digest>, mask: seq<bool>, pos: nat)
    requires |mask| == |txids| && First(0, pos) < |txids|
    ensures First(0, pos) == pos && First(0, pos) + Pow2(0) == pos + 1 && CalcHash(H, txids, 0, pos) == txids[pos]
    ensures Selected(txids, mask, pos, pos + 1) == if mask[pos] then [txids[pos]] else []
  {
    assert Selected(txids, mask, pos + 1, pos + 1) == [];
  }

  lemma BuildStops(H: PairHash, txids: seq<Digest>, mask: seq<bool>, height: nat, pos: nat)
    requires |mask| == |txids| && First(height, pos) < |txids|
    requires height == 0 || !AnyMatch(mask, First(height, pos), First(height, pos) + Pow2(height))
    ensures
      Build(H, txids, mask, height, pos) ==
        ([AnyMatch(mask, First(height, pos), First(height, pos) + Pow2(height))], [CalcHash(H, txids, height, pos)])
  {
    hide AnyMatch, First, CalcHash, Pow2;
  }

  /** The bits and hashes of a subtree are what comes next. */
  ghost predicate Next<T>(s: seq<T>, at: nat, part: seq<T>) {
    at + |part| <= |s| && s[at..at + |part|] == part
  }

  lemma NextSplit<T>(s: seq<T>, at: nat, a: seq<T>, b: seq<T>)
    requires Next(s, at, a + b)
    ensures Next(s, at, a) && Next(s, at + |a|, b)
  {
    assert (a + b)[..|a|] == a && (a + b)[|a|..] == b;
    assert s[at..at + |a|] == s[at..at + |a + b|][..|a|];
    assert s[at + |a|..at + |a + b|] == s[at..at + |a + b|][|a|..];
  }

  /** Reading back what was built gives the node's hash, the masked transactions below it, and no
      trouble. */
  lemma {:induction false} ExtractsBuild(H: PairHash, txids: seq<Digest>, mask: seq<bool>, vBits: seq<bool>,
                                         vHash: seq<Digest>, height: nat, pos: nat, c: Cursor)
    requires Injective(H) && |mask| == |txids| && First(height, pos) < |txids|
    requires forall i, j :: 0 <= i < j < |txids| ==> txids[i] != txids[j]
    requires
      var (b, hs) := Build(H, txids, mask, height, pos);
      Next(vBits, c.nBitsUsed, b) && Next(vHash, c.nHashUsed, hs)
    ensures
      var (b, hs) := Build(H, txids, mask, height, pos);
      var sel := Selected(txids, mask, First(height, pos), First(height, pos) + Pow2(height));
      Extract(H, |txids|, vBits, vHash, height, pos, c) ==
      (CalcHash(H, txids, height, pos), Cursor(c.nBitsUsed + |b|, c.nHashUsed + |hs|, c.vMatch + sel, c.fBad))
    decreases height
  {
    hide First, Pow2, Width, Injective, Extract, CalcHash, Build, Selected, AnyMatch, Next;
    var lo, hi := First(height, pos), First(height, pos) + Pow2(height);
    if height == 0 || !AnyMatch(mask, lo, hi) {
      BuildLeaf(H, txids, mask, height, pos);
      ExtractsLeaf(H, |txids|, vBits, vHash, height, pos, c,
                   Selected(txids, mask, lo, hi), CalcHash(H, txids, height, pos));
    } else {
      var two := BuildNode(H, txids, mask, height, pos);
      var (bl, hl) := Build(H, txids, mask, height - 1, pos * 2);
      var c1 := c.(nBitsUsed := c.nBitsUsed + 1);
      var mid := First(height - 1, pos * 2 + 1);
      SelectedSplit(txids, mask, lo, mid, hi);
      var sl, sr := Selected(txids, mask, lo, mid), Selected(txids, mask, mid, hi);
      if two {
        var (br, hr) := Build(H, txids, mask, height - 1, pos * 2 + 1);
        NextSplit(vBits, c.nBitsUsed, [true] + bl, br);
        NextSplit(vBits, c.nBitsUsed, [true], bl);
        NextSplit(vHash, c.nHashUsed, hl, hr);
        FirstBit(vBits, c.nBitsUsed);
        var two' := HonestNode(H, txids, vBits, vHash, height, pos, c);
        ExtractsBuild(H, txids, mask, vBits, vHash, height - 1, pos * 2, c1);
        var cl := Extract(H, |txids|, vBits, vHash, height - 1, pos * 2, c1).1;
        ExtractsBuild(H, txids, mask, vBits, vHash, height - 1, pos * 2 + 1, cl);
        SiblingsDiffer(H, txids, height - 1, pos * 2, pos * 2 + 1);
        assert c.vMatch + sl + sr == c.vMatch + (sl + sr);
      } else {
        NextSplit(vBits, c.nBitsUsed, [true], bl);
        FirstBit(vBits, c.nBitsUsed);
        var two' := HonestNode(H, txids, vBits, vHash, height, pos, c);
        ExtractsBuild(H, txids, mask, vBits, vHash, height - 1, pos * 2, c1);
        SelectedBeyond(txids, mask, mid, hi);
        assert sl + [] == sl;
      }
    }
  }

  lemma SelectedBeyond(txids: seq<Digest>, mask: seq<bool>, lo: nat, hi: nat)
    requires |mask| == |txids| && lo >= |txids|
    ensures Selected(txids, mask, lo, hi) == []
  {
  }

  lemma FirstBit(vBits: seq<bool>, at: nat)
    requires Next(vBits, at, [true])
    ensures at < |vBits| && vBits[at]
  {
    assert vBits[at..at + 1][0];
  }

  lemma ExtractsLeaf(H: PairHash, n: nat, vBits: seq<bool>, vHash: seq<Digest>, height: nat, pos: nat, c: Cursor,
                     sel: seq<Digest>, hash: Digest)
    requires Next(vBits, c.nBitsUsed, [sel != []]) && Next(vHash, c.nHashUsed, [hash])
    requires if height == 0 then sel == [] || sel == [hash] else sel == []
    ensures Extract(H, n, vBits, vHash, height, pos, c) ==
            (hash, Cursor(c.nBitsUsed + 1, c.nHashUsed + 1, c.vMatch + sel, c.fBad))
  {
    assert vBits[c.nBitsUsed..c.nBitsUsed + 1][0] == (sel != []);
    assert vHash[c.nHashUsed..c.nHashUsed + 1][0] == hash;
    assert c.vMatch + [] == c.vMatch;
  }

  lemma MatchBound(hl: nat, hr: nat, ml: nat, mr: nat, height: nat)
    ensures height == 0 && hl <= 1 && hr == 0 ==> hl <= 1 + ml * height
    ensures ml * height >= 0
    ensures height > 0 && ml + mr > 0 && hl <= 1 + ml * (height - 1) && (hr <= 1 || hr <= 1 + mr * (height - 1)) ==>
              hl + hr <= 1 + (ml + mr) * height
  {
    if height > 0 {
      assert (ml + mr) * height == ml * (height - 1) + mr * (height - 1) + (ml + mr);
      assert mr * (height - 1) >= 0;
    }
  }

  /** No more hashes than leaves, nor than bits. */
  lemma {:induction false} BuildLeafBound(H: PairHash, txids: seq<Digest>, mask: seq<bool>, height: nat, pos: nat)
    requires |mask| == |txids| && First(height, pos) < |txids|
    ensures
      var (b, hs) := Build(H, txids, mask, height, pos);
      var lo, hi := First(height, pos), First(height, pos) + Pow2(height);
      1 <= |hs| <= |b| && |hs| <= (if hi < |txids| then hi else |txids|) - lo
    decreases height
  {
    hide First, Pow2, Width, CalcHash, Build, Selected, AnyMatch;
    var lo, hi := First(height, pos), First(height, pos) + Pow2(height);
    if height == 0 || !AnyMatch(mask, lo, hi) {
      BuildLeaf(H, txids, mask, height, pos);
    } else {
      var two := BuildNode(H, txids, mask, height, pos);
      BuildLeafBound(H, txids, mask, height - 1, pos * 2);
      if two {
        BuildLeafBound(H, txids, mask, height - 1, pos * 2 + 1);
      }
    }
  }

  /** At most one hash more than the number of matches times the height. */
  lemma {:induction false} BuildMatchBound(H: PairHash, txids: seq<Digest>, mask: seq<bool>, height: nat, pos: nat)
    requires |mask| == |txids| && First(height, pos) < |txids|
    ensures |Build(H, txids, mask, height, pos).1| <=
            1 + |Selected(txids, mask, First(height, pos), First(height, pos) + Pow2(height))| * height
    decreases height
  {
    hide First, Pow2, Width, CalcHash, Build, Selected, AnyMatch;
    var lo, hi := First(height, pos), First(height, pos) + Pow2(height);
    var sel := Selected(txids, mask, lo, hi);
    if height == 0 || !AnyMatch(mask, lo, hi) {
      BuildLeaf(H, txids, mask, height, pos);
      MatchBound(1, 0, |sel|, 0, height);
    } else {
      SelectedNone(txids, mask, lo, hi);
      var two := BuildNode(H, txids, mask, height, pos);
      var mid := First(height - 1, pos * 2 + 1);
      SelectedSplit(txids, mask, lo, mid, hi);
      var ml, mr := |Selected(txids, mask, lo, mid)|, |Selected(txids, mask, mid, hi)|;
      assert |sel| == ml + mr;
      var hl := |Build(H, txids, mask, height - 1, pos * 2).1|;
      BuildMatchBound(H, txids, mask, height - 1, pos * 2);
      if two {
        BuildMatchBound(H, txids, mask, height - 1, pos * 2 + 1);
        MatchBound(hl, |Build(H, txids, mask, height - 1, pos * 2 + 1).1|, ml, mr, height);
      } else {
        MatchBound(hl, 1, ml, mr, height);
      }
    }
  }

  // ---------- bits in bytes ----------

  function BitMask(k: nat): bv8
    requires k < 8
  {
    match k
    case 0 => 1
    case 1 => 2
    case 2 => 4
    case 3 => 8
    case 4 => 16
    case 5 => 32
    case 6 => 64
    case 7 => 128
  }

  function TestBit(b: bv8, k: nat): bool
    requires k < 8
  {
    b & BitMask(k) != 0
  }

  lemma SetBit(b: bv8, k: nat, j: nat)
    requires k < 8 && j < 8
    ensures TestBit(b | BitMask(k), j) == (j == k || TestBit(b, j))
  {
  }

  /** The serialized flag bits: eight per byte, least significant first. */
  method PackBits(vBits: seq<bool>) returns (vBytes: seq<bv8>)
    ensures |vBytes| == (|vBits| + 7) / 8
    ensures forall q :: 0 <= q < 8 * |vBytes| ==> TestBit(vBytes[q / 8], q % 8) == (q < |vBits| && vBits[q])
  {
    vBytes := seq((|vBits| + 7) / 8, _ => 0);
    var p := 0;
    while p < |vBits|
      invariant 0 <= p <= |vBits| && |vBytes| == (|vBits| + 7) / 8
      invariant forall q :: 0 <= q < 8 * |vBytes| ==> TestBit(vBytes[q / 8], q % 8) == (q < p && vBits[q])
    {
      ghost var before := vBytes;
      if vBits[p] {
        vBytes := vBytes[p / 8 := vBytes[p / 8] | BitMask(p % 8)];
      }
      forall q | 0 <= q < 8 * |vBytes|
        ensures TestBit(vBytes[q / 8], q % 8) == (q < p + 1 && vBits[q])
      {
        SetBit(before[p / 8], p % 8, q % 8);
        assert q == 8 * (q / 8) + q % 8 && p == 8 * (p / 8) + p % 8;
      }
      p := p + 1;
    }
  }

  method UnpackBits(vBytes: seq<bv8>) returns (vBits: seq<bool>)
    ensures |vBits| == 8 * |vBytes|
    ensures forall q :: 0 <= q < |vBits| ==> vBits[q] == TestBit(vBytes[q / 8], q % 8)
  {
    vBits := [];
    while |vBits| < 8 * |vBytes|
      invariant |vBits| <= 8 * |vBytes|
      invariant forall q :: 0 <= q < |vBits| ==> vBits[q] == TestBit(vBytes[q / 8], q % 8)
    {
      var p := |vBits|;
      vBits := vBits + [TestBit(vBytes[p / 8], p % 8)];
    }
  }

  /** Padding up to whole bytes. */
  ghost predicate Padded(vBits: seq<bool>, padded: seq<bool>) {
    |padded| == 8 * ((|vBits| + 7) / 8) && vBits <= padded
  }

  /** Writing the flag bits and reading them back only pads them. */
  method TransmitBits(vBits: seq<bool>) returns (padded: seq<bool>)
    ensures Padded(vBits, padded)
    ensures forall q :: |vBits| <= q < |padded| ==> !padded[q]
  {
    var vBytes := PackBits(vBits);
    padded := UnpackBits(vBytes);
    assert forall q :: 0 <= q < |vBits| ==> padded[q] == vBits[q];
  }

  /** The bounds in the documentation of the format. */
  lemma EncodeBounds(H: PairHash, txids: seq<Digest>, mask: seq<bool>)
    requires txids != [] && |mask| == |txids|
    ensures |Encode(H, txids, mask).1| <= |txids|
    ensures |Encode(H, txids, mask).1| <= 1 + |Selected(txids, mask, 0, |txids|)| * RootHeight(|txids|, 0)
  {
    var h := RootHeight(|txids|, 0);
    RootCovers(|txids|);
    BuildLeafBound(H, txids, mask, h, 0);
    BuildMatchBound(H, txids, mask, h, 0);
    SelectedCut(txids, mask, 0, Pow2(h));
    hide Build, Selected;
  }

  /** Completeness: for every nonempty list of distinct transactions within the size limit, and
      every choice of matches, the encoding, padded to whole bytes, is accepted, gives the true
      root, and gives back exactly the chosen transactions in order. */
  lemma ExtractMatchesComplete(H: PairHash, txids: seq<Digest>, mask: seq<bool>, padded: seq<bool>)
    requires Injective(H) && |mask| == |txids| && 1 <= |txids| <= MAX_BLOCK_SIZE / 60
    requires forall i, j :: 0 <= i < j < |txids| ==> txids[i] != txids[j]
    requires Padded(Encode(H, txids, mask).0, padded)
    ensures Extracted(H, |txids|, padded, Encode(H, txids, mask).1) ==
            (MerkleRoot(H, txids), Selected(txids, mask, 0, |txids|))
  {
    hide Build, Extract, CalcHash, Injective, Selected, Width, Next, First, Pow2, RootHeight;
    var n, h := |txids|, RootHeight(|txids|, 0);
    RootCovers(n);
    var (b, hs) := Build(H, txids, mask, h, 0);
    BuildLeafBound(H, txids, mask, h, 0);
    var c := Cursor(0, 0, [], false);
    PaddedNext(b, padded, hs);
    ExtractsBuild(H, txids, mask, padded, hs, h, 0, c);
    SelectedCut(txids, mask, 0, Pow2(h));
    assert [] + Selected(txids, mask, 0, Pow2(h)) == Selected(txids, mask, 0, Pow2(h));
  }

  lemma PaddedNext(bits: seq<bool>, padded: seq<bool>, hashes: seq<Digest>)
    requires Padded(bits, padded)
    ensures Next(padded, 0, bits) && Next(hashes, 0, hashes)
  {
  }

  lemma {:induction false} SelectedCut(txids: seq<Digest>, mask: seq<bool>, lo: nat, hi: nat)
    requires |mask| == |txids| <= hi
    ensures Selected(txids, mask, lo, hi) == Selected(txids, mask, lo, |txids|)
    decreases hi - lo
  {
    if lo < |txids| {
      SelectedCut(txids, mask, lo + 1, hi);
    }
  }

  // ---------- the class ----------

  /** The loop that looks for a match below a node. */
  method AnyLeaf(mask: seq<bool>, lo: nat, hi: nat) returns (parent: bool)
    ensures parent <==> AnyMatch(mask, lo, hi)
  {
    parent := false;
    var p := lo;
    while p < hi && p < |mask|
      invariant lo <= p && (p <= hi || p == lo)
      invariant parent <==> AnyMatch(mask, lo, p)
    {
      parent := parent || mask[p];
      p := p + 1;
    }
  }

  class PartialMerkleTree {
    const nTransactions: nat
    var vBits: seq<bool>
    var vHash: seq<Digest>
    var fBad: bool

    /** Encodes the tree of txids with the transactions chosen by vMatch. */
    constructor (H: PairHash, txids: seq<Digest>, mask: seq<bool>)
      requires txids != [] && |mask| == |txids|
      ensures nTransactions == |txids| && !fBad
      ensures (vBits, vHash) == Encode(H, txids, mask)
    {
      nTransactions := |txids|;
      vBits, vHash, fBad := [], [], false;
      new;
      var h := TreeHeight(nTransactions);
      RootCovers(nTransactions);
      hide Build;
      TraverseAndBuild(H, h, 0, txids, mask);
      var (b, hs) := Encode(H, txids, mask);
      assert [] + b == b && [] + hs == hs;
    }

    method TraverseAndBuild(H: PairHash, height: nat, pos: nat, txids: seq<Digest>, mask: seq<bool>)
      requires |mask| == |txids| == nTransactions && First(height, pos) < |txids|
      modifies this`vBits, this`vHash
      ensures vBits == old(vBits) + Build(H, txids, mask, height, pos).0
      ensures vHash == old(vHash) + Build(H, txids, mask, height, pos).1
      decreases height
    {
      hide Build, CalcHash, AnyMatch, First, Pow2, Width, Selected;
      var parent := AnyLeaf(mask, First(height, pos), First(height, pos) + Pow2(height));
      vBits := vBits + [parent];
      if height == 0 || !parent {
        BuildLeaf(H, txids, mask, height, pos);
        SelectedNone(txids, mask, First(height, pos), First(height, pos) + Pow2(height));
        vHash := vHash + [CalcHash(H, txids, height, pos)];
      } else {
        ghost var two := BuildNode(H, txids, mask, height, pos);
        WidthIff(nTransactions, height - 1, pos * 2 + 1);
        TraverseAndBuild(H, height - 1, pos * 2, txids, mask);
        if pos * 2 + 1 < Width(nTransactions, height - 1) {
          TraverseAndBuild(H, height - 1, pos * 2 + 1, txids, mask);
        }
      }
    }

    method TraverseAndExtract(H: PairHash, height: nat, pos: nat, bitsUsed: nat, hashUsed: nat, found: seq<Digest>)
        returns (hash: Digest, nBitsUsed: nat, nHashUsed: nat, vMatch: seq<Digest>)
      modifies this`fBad
      ensures (hash, Cursor(nBitsUsed, nHashUsed, vMatch, fBad)) ==
              Extract(H, nTransactions, vBits, vHash, height, pos, Cursor(bitsUsed, hashUsed, found, old(fBad)))
      decreases height
    {
      nBitsUsed, nHashUsed, vMatch := bitsUsed, hashUsed, found;
      if nBitsUsed >= |vBits| {
        fBad := true;
        return NULL, nBitsUsed, nHashUsed, vMatch;
      }
      var parent := vBits[nBitsUsed];
      nBitsUsed := nBitsUsed + 1;
      if height == 0 || !parent {
        if nHashUsed >= |vHash| {
          fBad := true;
          return NULL, nBitsUsed, nHashUsed, vMatch;
        }
        hash := vHash[nHashUsed];
        nHashUsed := nHashUsed + 1;
        if height == 0 && parent {
          vMatch := vMatch + [hash];
        }
      } else {
        var left, right;
        left, nBitsUsed, nHashUsed, vMatch := TraverseAndExtract(H, height - 1, pos * 2, nBitsUsed, nHashUsed, vMatch);
        if pos * 2 + 1 < Width(nTransactions, height - 1) {
          right, nBitsUsed, nHashUsed, vMatch :=
            TraverseAndExtract(H, height - 1, pos * 2 + 1, nBitsUsed, nHashUsed, vMatch);
          if right == left {
            fBad := true;
          }
        } else {
          right := left;
        }
        hash := H(left, right);
      }
    }

    /** The root and the matches; the null hash if the tree was found bad, now or before. */
    method ExtractMatches(H: PairHash) returns (root: Digest, vMatch: seq<Digest>)
      modifies this`fBad
      ensures vMatch == Extracted(H, nTransactions, vBits, vHash).1
      ensures root == if old(fBad) then NULL else Extracted(H, nTransactions, vBits, vHash).0
      ensures old(fBad) ==> fBad
    {
      vMatch := [];
      if nTransactions == 0 || nTransactions > MAX_BLOCK_SIZE / 60 {
        return NULL, vMatch;
      }
      if |vHash| > nTransactions || |vBits| < |vHash| {
        return NULL, vMatch;
      }
      var h := TreeHeight(nTransactions);
      hide Extract;
      if fBad { ExtractAfterFailure(H, nTransactions, vBits, vHash, h, 0, Cursor(0, 0, [], true)); }
      var nBitsUsed, nHashUsed;
      root, nBitsUsed, nHashUsed, vMatch := TraverseAndExtract(H, h, 0, 0, 0, vMatch);
      if fBad || (nBitsUsed + 7) / 8 != (|vBits| + 7) / 8 || nHashUsed != |vHash| {
        root := NULL;
      }
    }
  }
}
