/** The stored form of a coin record, with its bit vector of unspent outputs. */
module CoinsCodec {
  import opened Utxo
  import opened Compressor
  import opened LimbMath

  // ---------- bits and bytes ----------

  /** Up to eight bits as a number, lowest first. */
  function ByteOf(bits: seq<bool>): nat {
    if bits == [] then 0 else (if bits[0] then 1 else 0) + 2 * ByteOf(bits[1..])
  }

  function BitsOf(x: nat, n: nat): (r: seq<bool>)
    ensures |r| == n
    decreases n
  {
    if n == 0 then [] else [x % 2 == 1] + BitsOf(x / 2, n - 1)
  }

  function Off(n: nat): (r: seq<bool>)
    ensures |r| == n && forall i :: 0 <= i < n ==> !r[i]
  {
    seq(n, _ => false)
  }

  lemma {:induction false} BitsBack(bits: seq<bool>, n: nat)
    requires |bits| <= n
    ensures BitsOf(ByteOf(bits), n) == bits + Off(n - |bits|)
    ensures ByteOf(bits) < Pow2(n)
    ensures ByteOf(bits) == 0 <==> forall i :: 0 <= i < |bits| ==> !bits[i]
    decreases n
  {
    if bits == [] {
      if n > 0 { BitsBack([], n - 1); }
    } else {
      BitsBack(bits[1..], n - 1);
      assert bits == [bits[0]] + bits[1..];
    }
  }

  lemma {:induction false} BitAt(x: nat, n: nat, p: nat)
    requires p < n
    ensures x / Pow2(p) >= 0 && BitsOf(x, n)[p] == ((x / Pow2(p)) % 2 == 1)
    decreases n
  {
    if p > 0 {
      BitAt(x / 2, n - 1, p - 1);
      DivAgain(x, Pow2(p - 1));
      Pow2Double(p - 1);
    }
  }

  lemma DivAgain(x: nat, p: nat)
    requires p >= 1
    ensures (x / 2) / p == x / (2 * p)
  {
    var q, r := (x / 2) / p, (x / 2) % p;
    assert x / 2 == q * p + r;
    assert x == q * (2 * p) + (2 * r + x % 2) by { assert 2 * (q * p) == q * (2 * p); }
    DivModUnique(x, 2 * p, q, 2 * r + x % 2);
  }

  /** The bits of a vector in bytes. */
  function Mask(bits: seq<bool>): (m: seq<int>)
    ensures |m| == (|bits| + 7) / 8
    decreases |bits|
  {
    if |bits| <= 8 then (if bits == [] then [] else [ByteOf(bits)])
    else [ByteOf(bits[..8])] + Mask(bits[8..])
  }

  function Unpacked(m: seq<int>): (bits: seq<bool>)
    ensures |bits| == 8 * |m|
  {
    if m == [] then [] else BitsOf(if m[0] < 0 then 0 else m[0], 8) + Unpacked(m[1..])
  }

  /** The chunk of bits that byte b holds. */
  function Chunk(bits: seq<bool>, b: nat): seq<bool>
    requires 8 * b < |bits|
  {
    bits[8 * b..if 8 * b + 8 < |bits| then 8 * b + 8 else |bits|]
  }

  lemma {:induction false} MaskAt(bits: seq<bool>, b: nat)
    requires 8 * b < |bits|
    ensures b < |Mask(bits)| && Mask(bits)[b] == ByteOf(Chunk(bits, b))
    decreases b
  {
    if b > 0 {
      MaskAt(bits[8..], b - 1);
      ChunkShift(bits, b);
    } else if |bits| <= 8 {
      assert Chunk(bits, 0) == bits;
    } else {
      assert Chunk(bits, 0) == bits[..8];
    }
  }

  lemma ChunkShift(bits: seq<bool>, b: nat)
    requires b > 0 && 8 * b < |bits|
    ensures Chunk(bits[8..], b - 1) == Chunk(bits, b)
  {
    var c, d := Chunk(bits[8..], b - 1), Chunk(bits, b);
    assert |c| == |d|;
    assert forall i :: 0 <= i < |c| ==> c[i] == bits[8..][8 * (b - 1) + i] == bits[8 * b + i] == d[i];
  }

  lemma EightBits(bits: seq<bool>)
    requires |bits| <= 8
    ensures ByteOf(bits) < 256 && BitsOf(ByteOf(bits), 8) == bits + Off(8 - |bits|)
  {
    assert Pow2(4) == 16;
    hide Pow2, ByteOf, BitsOf;
    Pow2Sum(4, 4);
    BitsBack(bits, 8);
  }

  lemma UnpackFirst(x: nat, m: seq<int>)
    ensures Unpacked([x] + m) == BitsOf(x, 8) + Unpacked(m)
  {
    assert ([x] + m)[1..] == m;
  }

  lemma {:induction false} UnpackMask(bits: seq<bool>)
    ensures AreBytes(Mask(bits)) && Unpacked(Mask(bits)) == bits + Off(8 * |Mask(bits)| - |bits|)
    decreases |bits|
  {
    hide ByteOf, BitsOf, Unpacked;
    if bits == [] {
      UnpackNone();
    } else if |bits| <= 8 {
      EightBits(bits);
      UnpackFirst(ByteOf(bits), []);
      UnpackNone();
      assert Mask(bits) == [ByteOf(bits)] + [];
    } else {
      EightBits(bits[..8]);
      UnpackMask(bits[8..]);
      UnpackFirst(ByteOf(bits[..8]), Mask(bits[8..]));
      assert bits == bits[..8] + bits[8..];
    }
  }

  lemma UnpackNone()
    ensures Unpacked([]) == []
  {
  }

  /** Without the zero bytes at the end. */
  function Used(m: seq<int>): (r: seq<int>)
    ensures |r| <= |m| && r == m[..|r|] && (r != [] ==> r[|r| - 1] != 0) && forall i :: |r| <= i < |m| ==> m[i] == 0
  {
    if m != [] && m[|m| - 1] == 0 then Used(m[..|m| - 1]) else m
  }

  function NonZero(m: seq<int>): (n: nat)
    ensures n > 0 <==> exists i :: 0 <= i < |m| && m[i] != 0
  {
    if m == [] then 0 else (if m[0] != 0 then 1 else 0) + NonZero(m[1..])
  }

  lemma {:induction false} NonZeroSplit(a: seq<int>, b: seq<int>)
    ensures NonZero(a + b) == NonZero(a) + NonZero(b)
    decreases |a|
  {
    if a == [] {
      assert a + b == b;
    } else {
      assert (a + b)[1..] == a[1..] + b;
      NonZeroSplit(a[1..], b);
    }
  }

  /** Reads bytes until n of them were not zero. */
  function ReadMask(s: seq<int>, n: nat): (r: Read<seq<int>>) {
    if n == 0 then Got([], s)
    else if s == [] then Failed
    else
      match ReadMask(s[1..], if s[0] != 0 then n - 1 else n)
      case Failed => Failed
      case Got(m, rest) => Got([s[0]] + m, rest)
  }

  /** The count of nonzero bytes marks the end, as the last byte is not zero. */
  lemma {:induction false} ReadUsed(m: seq<int>, t: seq<int>)
    requires m != [] ==> m[|m| - 1] != 0
    ensures ReadMask(m + t, NonZero(m)) == Got(m, t)
    decreases |m|
  {
    if m == [] {
      assert m + t == t;
    } else {
      assert (m + t)[1..] == m[1..] + t && (m + t)[0] == m[0];
      assert m == [m[0]] + m[1..];
      ReadUsed(m[1..], t);
    }
  }

  lemma {:induction false} UnpackSplit(a: seq<int>, b: seq<int>)
    ensures Unpacked(a + b) == Unpacked(a) + Unpacked(b)
    decreases |a|
  {
    if a == [] {
      assert a + b == b;
    } else {
      assert (a + b)[1..] == a[1..] + b;
      UnpackSplit(a[1..], b);
    }
  }

  lemma {:induction false} UnpackZeros(m: seq<int>)
    requires forall i :: 0 <= i < |m| ==> m[i] == 0
    ensures Unpacked(m) == Off(8 * |m|)
    decreases |m|
  {
    if m != [] {
      UnpackZeros(m[1..]);
      BitsBack([], 8);
      assert ByteOf([]) == 0;
    }
  }

  // ---------- the outputs of a record ----------

  /** Which of the outputs from the third on are unspent. */
  function TailBits(vout: seq<TxOut>): (r: seq<bool>)
    ensures |r| == if |vout| > 2 then |vout| - 2 else 0
    ensures forall i :: 0 <= i < |r| ==> r[i] == !vout[i + 2].IsNull()
  {
    seq(if |vout| > 2 then |vout| - 2 else 0, i requires 0 <= i < |vout| - 2 => !vout[i + 2].IsNull())
  }

  predicate Unspent(vout: seq<TxOut>, i: nat) {
    i < |vout| && !vout[i].IsNull()
  }

  /** avail says which outputs are unspent, and reaches beyond the last of them. */
  ghost predicate Matches(avail: seq<bool>, vout: seq<TxOut>) {
    (forall i :: 0 <= i < |avail| ==> avail[i] == Unspent(vout, i)) &&
    (forall i :: |avail| <= i < |vout| ==> vout[i].IsNull())
  }

  /** The flags that are rebuilt from the code and the stored bytes match the outputs. */
  lemma FlagsMatch(vout: seq<TxOut>)
    ensures Matches([Unspent(vout, 0), Unspent(vout, 1)] + Unpacked(Used(Mask(TailBits(vout)))), vout)
  {
    var bits, m := TailBits(vout), Mask(TailBits(vout));
    var u := Used(m);
    hide Mask, Unpacked, Used;
    UnpackMask(bits);
    assert m == u + m[|u|..];
    UnpackSplit(u, m[|u|..]);
    UnpackZeros(m[|u|..]);
    var all := Unpacked(u) + Off(8 * |m[|u|..]|);
    assert all == bits + Off(8 * |m| - |bits|);
    var avail := [Unspent(vout, 0), Unspent(vout, 1)] + Unpacked(u);
    forall i | 0 <= i < |avail| ensures avail[i] == Unspent(vout, i) {
      if i >= 2 {
        assert avail[i] == all[i - 2];
        assert i - 2 < |bits| ==> all[i - 2] == bits[i - 2];
      }
    }
    forall i | |avail| <= i < |vout| ensures vout[i].IsNull() {
      assert all[i - 2] == bits[i - 2];
    }
  }

  lemma {:induction false} UnpackedAt(m: seq<int>, b: nat, j: nat)
    requires b < |m| && m[b] >= 0 && j < 8
    ensures Unpacked(m)[8 * b + j] == (m[b] / Pow2(j) % 2 == 1)
    decreases b
  {
    hide BitsOf, Pow2;
    if b == 0 { BitAt(m[0], 8, j); } else { UnpackedAt(m[1..], b - 1, j); }
  }

  /** The stored bytes: bit j of byte b says whether output 2 + 8 * b + j is unspent; the last byte is not zero, and
      no output beyond the bytes is unspent. */
  lemma MaskBits(vout: seq<TxOut>, b: nat, j: nat)
    requires j < 8
    ensures
      var mask := Used(Mask(TailBits(vout)));
      && AreBytes(mask) && (mask != [] ==> mask[|mask| - 1] != 0)
      && (2 + 8 * b + j < |vout| && vout[2 + 8 * b + j].nValue != -1 <==> b < |mask| && mask[b] / Pow2(j) % 2 == 1)
  {
    hide Mask, Unpacked, Used, Pow2, TailBits;
    var m := Mask(TailBits(vout));
    var u := Used(m);
    UnpackMask(TailBits(vout));
    assert forall i :: 0 <= i < |u| ==> u[i] == m[i];
    FlagsMatch(vout);
    var avail := [Unspent(vout, 0), Unspent(vout, 1)] + Unpacked(u);
    if b < |u| {
      UnpackedAt(u, b, j);
      assert avail[2 + 8 * b + j] == Unspent(vout, 2 + 8 * b + j);
    } else {
      assert 2 + 8 * b + j >= |avail|;
    }
  }

  function Outputs(curve: Curve, vout: seq<TxOut>): seq<int>
    requires Storable(vout)
  {
    if vout == [] then []
    else (if vout[0].IsNull() then [] else Output(curve, vout[0])) + Outputs(curve, vout[1..])
  }

  /** Amounts of unspent outputs are not negative, scripts are bytes, and spent outputs are cleared. */
  predicate Storable(vout: seq<TxOut>) {
    forall i :: 0 <= i < |vout| ==>
      AreBytes(vout[i].script) && if vout[i].IsNull() then vout[i] == NULL_OUT else vout[i].nValue >= 0
  }

  function ReadOutputs(curve: Curve, avail: seq<bool>, s: seq<int>): (r: Read<seq<TxOut>>)
    requires AreBytes(s) && curve.Lawful()
    decreases |avail|
  {
    if avail == [] then Got([], s)
    else if !avail[0] then
      match ReadOutputs(curve, avail[1..], s)
      case Failed => Failed
      case Got(v, rest) => Got([NULL_OUT] + v, rest)
    else
      match ReadOutput(curve, s)
      case Failed => Failed
      case Got(o, rest) =>
        (ReadOutputRest(curve, s);
        match ReadOutputs(curve, avail[1..], rest)
        case Failed => Failed
        case Got(v, rest') => Got([o] + v, rest'))
  }

  lemma ReadOutputRest(curve: Curve, s: seq<int>)
    requires AreBytes(s)
    ensures ReadOutput(curve, s).Got? ==> AreBytes(ReadOutput(curve, s).rest)
  {
    hide ReadVar, LongScript;
    ReadVarRest(s, 0);
    if ReadVar(s, 0).Got? { ReadVarRest(ReadVar(s, 0).rest, 0); }
  }

  /** The outputs marked in avail, and null outputs between them. */
  function Marked(avail: seq<bool>, vout: seq<TxOut>): (r: seq<TxOut>)
    ensures |r| == |avail| && forall i :: 0 <= i < |r| ==> r[i] == if avail[i] && i < |vout| then vout[i] else NULL_OUT
  {
    seq(|avail|, i requires 0 <= i < |avail| => if avail[i] && i < |vout| then vout[i] else NULL_OUT)
  }

  lemma {:induction false} OutputBytes(curve: Curve, vout: seq<TxOut>)
    requires curve.Lawful() && Storable(vout)
    ensures AreBytes(Outputs(curve, vout))
    decreases |vout|
  {
    if vout != [] {
      hide Output;
      OutputBytes(curve, vout[1..]);
      if !vout[0].IsNull() {
        ReadWrittenOutput(curve, vout[0], []);
        assert Output(curve, vout[0]) + [] == Output(curve, vout[0]);
      }
    }
  }

  lemma {:induction false} ReadWrittenOutputs(curve: Curve, avail: seq<bool>, vout: seq<TxOut>, t: seq<int>)
    requires curve.Lawful() && Storable(vout) && Matches(avail, vout) && AreBytes(t)
    ensures AreBytes(Outputs(curve, vout) + t)
    ensures ReadOutputs(curve, avail, Outputs(curve, vout) + t) == Got(Marked(avail, vout), t)
    decreases |avail|, |vout|
  {
    hide Output, ReadOutput, Outputs, ReadOutputs, Marked, AreBytes, Curve.Lawful;
    OutputBytes(curve, vout);
    if avail == [] {
      NoOutputs(curve, vout);
      BytesJoin(Outputs(curve, vout), t);
      assert Outputs(curve, vout) + t == t;
      ReadNone(curve, t);
    } else {
      var rest := if vout == [] then [] else vout[1..];
      MatchesRest(avail, vout);
      ReadWrittenOutputs(curve, avail[1..], rest, t);
      MarkedStep(avail, vout);
      OutputsStep(curve, vout);
      var later := Outputs(curve, rest) + t;
      if avail[0] {
        assert Outputs(curve, vout) + t == Output(curve, vout[0]) + later;
        ReadWrittenOutput(curve, vout[0], later);
      } else {
        assert Outputs(curve, vout) + t == later;
      }
      ReadFirst(curve, avail, Outputs(curve, vout) + t, if avail[0] then vout[0] else NULL_OUT, later);
    }
  }

  lemma BytesJoin(a: seq<int>, b: seq<int>)
    requires AreBytes(a) && AreBytes(b)
    ensures AreBytes(a + b)
  {
  }

  lemma ReadNone(curve: Curve, t: seq<int>)
    requires AreBytes(t) && curve.Lawful()
    ensures ReadOutputs(curve, [], t) == Got([], t)
  {
  }

  lemma ReadFirst(curve: Curve, avail: seq<bool>, s: seq<int>, o: TxOut, later: seq<int>)
    requires AreBytes(s) && AreBytes(later) && curve.Lawful() && avail != []
    requires if avail[0] then ReadOutput(curve, s) == Got(o, later) else o == NULL_OUT && later == s
    ensures
      ReadOutputs(curve, avail, s) ==
        match ReadOutputs(curve, avail[1..], later)
        case Failed => Failed
        case Got(v, rest) => Got([o] + v, rest)
  {
    hide ReadOutput, AreBytes;
  }

  lemma OutputsStep(curve: Curve, vout: seq<TxOut>)
    requires Storable(vout)
    ensures
      Outputs(curve, vout) ==
        (if Unspent(vout, 0) then Output(curve, vout[0]) else []) + Outputs(curve, if vout == [] then [] else vout[1..])
  {
    hide Output;
  }

  lemma MarkedStep(avail: seq<bool>, vout: seq<TxOut>)
    requires Matches(avail, vout) && avail != []
    ensures
      (avail[0] ==> vout != []) &&
      Marked(avail, vout) ==
        [if avail[0] then vout[0] else NULL_OUT] + Marked(avail[1..], if vout == [] then [] else vout[1..])
  {
  }

  lemma MatchesRest(avail: seq<bool>, vout: seq<TxOut>)
    requires Matches(avail, vout) && avail != []
    ensures Matches(avail[1..], if vout == [] then [] else vout[1..])
  {
    var rest := if vout == [] then [] else vout[1..];
    forall i | 0 <= i < |avail| - 1 ensures avail[1..][i] == Unspent(rest, i) {
      assert avail[i + 1] == Unspent(vout, i + 1);
    }
  }

  lemma {:induction false} NoOutputs(curve: Curve, vout: seq<TxOut>)
    requires Storable(vout) && forall i :: 0 <= i < |vout| ==> vout[i].IsNull()
    ensures Outputs(curve, vout) == []
    decreases |vout|
  {
    if vout != [] { NoOutputs(curve, vout[1..]); }
  }

  /** Reading leaves null outputs at the end at most, and cleaning up removes them. */
  lemma MarkedTrim(avail: seq<bool>, vout: seq<TxOut>)
    requires Matches(avail, vout) && Storable(vout)
    ensures Trim(Marked(avail, vout)) == Trim(vout)
  {
    hide Trim;
    var m := Marked(avail, vout);
    var a, b := Trim(m), Trim(vout);
    forall i: nat ensures Unspent(m, i) <==> Unspent(vout, i) {
      assert i < |avail| ==> avail[i] == Unspent(vout, i);
    }
    assert |a| > 0 ==> Unspent(m, |a| - 1);
    assert |b| > 0 ==> Unspent(vout, |b| - 1);
    assert |a| == |b|;
    forall i | 0 <= i < |a| ensures a[i] == b[i] {
      assert i < |avail| && avail[i] == Unspent(vout, i);
    }
  }

  // ---------- the record ----------

  /** The header code: coinbase, the first two outputs, and how many bytes of the mask are not zero. */
  function Code(c: Coins): int {
    var first, second := Unspent(c.vout, 0), Unspent(c.vout, 1);
    8 * (NonZero(Mask(TailBits(c.vout))) - (if first || second then 0 else 1)) +
    (if c.fCoinBase then 1 else 0) + (if first then 2 else 0) + (if second then 4 else 0)
  }

  /** The part after the header code. */
  function Body(curve: Curve, c: Coins): seq<int>
    requires Storable(c.vout)
  {
    Used(Mask(TailBits(c.vout))) + (Outputs(curve, c.vout) + VarInt(c.nHeight))
  }

  function Record(curve: Curve, c: Coins): seq<int>
    requires Storable(c.vout)
  {
    VarInt(c.nVersion) + (VarInt(Code(c)) + Body(curve, c))
  }

  function FirstFlags(code: nat): (f: seq<bool>)
    ensures |f| == 2
  {
    [code / 2 % 2 == 1, code / 4 % 2 == 1]
  }

  function MaskCode(code: nat): nat {
    code / 8 + if FirstFlags(code)[0] || FirstFlags(code)[1] then 0 else 1
  }

  function ReadRecord(curve: Curve, s: seq<int>): (r: Read<Coins>)
    requires AreBytes(s) && curve.Lawful()
  {
    match ReadVar(s, 0)
    case Failed => Failed
    case Got(version, s1) =>
      (ReadVarRest(s, 0);
      match ReadVar(s1, 0)
      case Failed => Failed
      case Got(code, s2) =>
        (ReadVarRest(s1, 0);
        ReadBody(curve, version, code, s2)))
  }

  function ReadBody(curve: Curve, version: nat, code: nat, s: seq<int>): (r: Read<Coins>)
    requires AreBytes(s) && curve.Lawful()
  {
    match ReadMask(s, MaskCode(code))
    case Failed => Failed
    case Got(mask, s1) =>
      (ReadMaskRest(s, MaskCode(code));
      match ReadOutputs(curve, FirstFlags(code) + Unpacked(mask), s1)
      case Failed => Failed
      case Got(vout, s2) =>
        (ReadOutputsRest(curve, FirstFlags(code) + Unpacked(mask), s1);
        match ReadVar(s2, 0)
        case Failed => Failed
        case Got(height, s3) => Got(Coins(code % 2 == 1, Trim(vout), height, version), s3)))
  }

  lemma {:induction false} ReadMaskRest(s: seq<int>, n: nat)
    requires AreBytes(s)
    ensures ReadMask(s, n).Got? ==> AreBytes(ReadMask(s, n).rest) && AreBytes(ReadMask(s, n).value)
    decreases |s|
  {
    if n > 0 && s != [] { ReadMaskRest(s[1..], if s[0] != 0 then n - 1 else n); }
  }

  lemma {:induction false} ReadOutputsRest(curve: Curve, avail: seq<bool>, s: seq<int>)
    requires AreBytes(s) && curve.Lawful()
    ensures ReadOutputs(curve, avail, s).Got? ==> AreBytes(ReadOutputs(curve, avail, s).rest)
    decreases |avail|
  {
    if avail != [] {
      hide ReadOutput;
      ReadOutputRest(curve, s);
      if !avail[0] {
        ReadOutputsRest(curve, avail[1..], s);
      } else if ReadOutput(curve, s).Got? {
        ReadOutputsRest(curve, avail[1..], ReadOutput(curve, s).rest);
      }
    }
  }

  /** The code tells everything the mask needs, for a record with an unspent output. */
  lemma CodeFields(c: Coins)
    requires !c.IsPruned()
    ensures
      var code := Code(c);
      && code >= 0 && (code % 2 == 1 <==> c.fCoinBase)
      && FirstFlags(code) == [Unspent(c.vout, 0), Unspent(c.vout, 1)]
      && MaskCode(code) == NonZero(Mask(TailBits(c.vout)))
  {
    var first, second, n := Unspent(c.vout, 0), Unspent(c.vout, 1), NonZero(Mask(TailBits(c.vout)));
    hide NonZero, Mask;
    if !first && !second { SomeMask(c); }
    var k := n - if first || second then 0 else 1;
    CodeParts(k, c.fCoinBase, first, second);
  }

  /** Some output of the eight of byte b is unspent. */
  predicate InUse(vout: seq<TxOut>, b: nat) {
    exists i :: 2 + 8 * b <= i < 10 + 8 * b && i < |vout| && vout[i].nValue != -1
  }

  /** The documented fields of the code: coinbase, the first two outputs, and how many bytes are in use; or one less
      than that, if both outputs are spent. */
  lemma CodeMeans(c: Coins, used: set<nat>)
    requires !c.IsPruned() && forall b: nat :: b in used <==> InUse(c.vout, b)
    ensures
      var code := Code(c);
      && code >= 0
      && (code % 2 == 1 <==> c.fCoinBase)
      && (code / 2 % 2 == 1 <==> |c.vout| > 0 && c.vout[0].nValue != -1)
      && (code / 4 % 2 == 1 <==> |c.vout| > 1 && c.vout[1].nValue != -1)
      && code / 8 == |used| - if code / 2 % 2 == 1 || code / 4 % 2 == 1 then 0 else 1
  {
    var m := Mask(TailBits(c.vout));
    CodeFields(c);
    forall b: nat
      ensures b in used <==> b < |m| && m[b] != 0
    {
      ByteInUse(c.vout, b);
    }
    hide Mask, NonZero, InUse, Code;
    NonZeroCount(m, used);
  }

  lemma ByteInUse(vout: seq<TxOut>, b: nat)
    ensures InUse(vout, b) <==> b < |Mask(TailBits(vout))| && Mask(TailBits(vout))[b] != 0
  {
    hide Mask, ByteOf;
    var bits := TailBits(vout);
    if 8 * b < |bits| {
      var chunk := Chunk(bits, b);
      MaskAt(bits, b);
      BitsBack(chunk, 8);
      forall i | 0 <= i < |chunk|
        ensures chunk[i] == (vout[2 + 8 * b + i].nValue != -1)
      {
        assert chunk[i] == bits[8 * b + i];
      }
      if InUse(vout, b) {
        var i :| 2 + 8 * b <= i < 10 + 8 * b && i < |vout| && vout[i].nValue != -1;
        assert chunk[i - 2 - 8 * b];
      }
    }
  }

  lemma {:induction false} NonZeroCount(m: seq<int>, used: set<nat>)
    requires forall b: nat :: b in used <==> b < |m| && m[b] != 0
    ensures NonZero(m) == |used|
    decreases |m|
  {
    if m == [] {
      assert used == {};
    } else {
      var k := |m| - 1;
      assert m == m[..k] + [m[k]];
      NonZeroSplit(m[..k], [m[k]]);
      NonZeroCount(m[..k], used - {k});
      assert NonZero([m[k]]) == if m[k] != 0 then 1 else 0;
      if m[k] == 0 { assert used - {k} == used; }
    }
  }

  lemma CodeParts(k: nat, a: bool, b: bool, d: bool)
    ensures
      var code := 8 * k + (if a then 1 else 0) + (if b then 2 else 0) + (if d then 4 else 0);
      code / 8 == k && (code % 2 == 1 <==> a) && (code / 2 % 2 == 1 <==> b) && (code / 4 % 2 == 1 <==> d)
  {
    Digits(k, if a then 1 else 0, if b then 1 else 0, if d then 1 else 0);
  }

  lemma Digits(k: nat, x: nat, y: nat, z: nat)
    requires x < 2 && y < 2 && z < 2
    ensures
      var code := 8 * k + x + 2 * y + 4 * z;
      code / 8 == k && code % 2 == x && code / 2 % 2 == y && code / 4 % 2 == z
  {
    var code := 8 * k + x + 2 * y + 4 * z;
    Halved(code, 4 * k + y + 2 * z, x);
    Halved(4 * k + y + 2 * z, 2 * k + z, y);
    Halved(2 * k + z, k, z);
    assert code / 4 == code / 2 / 2 && code / 8 == code / 2 / 2 / 2;
  }

  lemma Halved(n: nat, q: nat, r: nat)
    requires n == 2 * q + r && r < 2
    ensures n / 2 == q && n % 2 == r
  {
  }

  /** An unspent output beyond the second makes a byte of the mask nonzero. */
  lemma SomeMask(c: Coins)
    requires !c.IsPruned() && !Unspent(c.vout, 0) && !Unspent(c.vout, 1)
    ensures NonZero(Mask(TailBits(c.vout))) > 0
  {
    hide Mask;
    var bits := TailBits(c.vout);
    var i :| 0 <= i < |c.vout| && !c.vout[i].IsNull();
    assert i >= 2;
    var j := i - 2;
    assert bits[j];
    MaskAt(bits, j / 8);
    var chunk := Chunk(bits, j / 8);
    assert chunk[j % 8];
    BitsBack(chunk, 8);
    assert Mask(bits)[j / 8] != 0;
  }

  lemma UsedNonZero(m: seq<int>)
    ensures NonZero(Used(m)) == NonZero(m)
  {
    hide Used;
    var u := Used(m);
    assert m == u + m[|u|..];
    NonZeroSplit(u, m[|u|..]);
  }

  /** What is read back of a record: its outputs without spent ones at the end, and its version
      unless that is negative. */
  lemma ReadWrittenRecord(curve: Curve, c: Coins, t: seq<int>)
    requires curve.Lawful() && Storable(c.vout) && !c.IsPruned() && AreBytes(t)
    ensures AreBytes(Record(curve, c) + t)
    ensures
      ReadRecord(curve, Record(curve, c) + t) == Got(StoredCoins(c.(vout := Trim(c.vout))), t)
  {
    hide VarInt, ReadVar, ReadBody, Code, Curve.Lawful, AreBytes, Body;
    var body := Body(curve, c) + t;
    ReadWrittenBody(curve, c, StoredVersion(c.nVersion), t);
    CodeFields(c);
    ReadVarInt(Code(c), body);
    var s1 := VarInt(Code(c)) + body;
    if c.nVersion >= 0 { ReadVarInt(c.nVersion, s1); } else { ReadNegative(c.nVersion, s1); }
    RecordParts(curve, c, t);
  }

  lemma RecordParts(curve: Curve, c: Coins, t: seq<int>)
    requires Storable(c.vout)
    ensures Record(curve, c) + t == VarInt(c.nVersion) + (VarInt(Code(c)) + (Body(curve, c) + t))
  {
    hide VarInt, Code, Used, Mask, Outputs;
  }

  lemma ReadWrittenBody(curve: Curve, c: Coins, version: nat, t: seq<int>)
    requires curve.Lawful() && Storable(c.vout) && !c.IsPruned() && AreBytes(t)
    ensures AreBytes(Body(curve, c) + t) && Code(c) >= 0
    ensures ReadBody(curve, version, Code(c), Body(curve, c) + t) ==
      Got(c.(vout := Trim(c.vout), nVersion := version), t)
  {
    hide VarInt, ReadVar, ReadMask, ReadOutputs, Code, Curve.Lawful, AreBytes, Used, Mask, Outputs, Trim;
    hide Unpacked, Matches, FirstFlags, MaskCode, Marked, NonZero, TailBits;
    CodeFields(c);
    var m := Mask(TailBits(c.vout));
    var u := Used(m);
    var avail := [Unspent(c.vout, 0), Unspent(c.vout, 1)] + Unpacked(u);
    ReadVarInt(c.nHeight, t);
    var s2 := VarInt(c.nHeight) + t;
    FlagsMatch(c.vout);
    ReadWrittenOutputs(curve, avail, c.vout, s2);
    var s1 := Outputs(curve, c.vout) + s2;
    UsedNonZero(m);
    UsedLast(m);
    ReadUsed(u, s1);
    MarkedTrim(avail, c.vout);
    UnpackMask(TailBits(c.vout));
    UsedBytes(m);
    BytesJoin(u, s1);
    assert Body(curve, c) + t == u + s1;
  }

  lemma UsedLast(m: seq<int>)
    ensures Used(m) != [] ==> Used(m)[|Used(m)| - 1] != 0
  {
  }

  lemma UsedBytes(m: seq<int>)
    requires AreBytes(m)
    ensures AreBytes(Used(m))
  {
  }

  /** A record comes back exactly as it was if and only if no spent output is at its end and its version is
      not negative. */
  lemma RecordRoundTrip(curve: Curve, c: Coins, t: seq<int>)
    requires curve.Lawful() && Storable(c.vout) && !c.IsPruned() && AreBytes(t)
    ensures AreBytes(Record(curve, c) + t)
    ensures ReadRecord(curve, Record(curve, c) + t) == Got(c, t) <==> c.Clean() && c.nVersion >= 0
  {
    hide Record, ReadRecord, Trim;
    ReadWrittenRecord(curve, c, t);
    assert c.Clean() <==> Trim(c.vout) == c.vout by { CleanTrim(c); }
  }

  lemma CleanTrim(c: Coins)
    requires Storable(c.vout)
    ensures c.Clean() <==> Trim(c.vout) == c.vout
  {
  }

  /** The two records in the documentation of the format. */
  lemma RecordExamples(curve: Curve, hash: seq<int>, other: seq<int>)
    requires |hash| == |other| == 20 && AreBytes(hash) && AreBytes(other)
    ensures
      var script, script' := [0x76, 0xa9, 0x14] + hash + [0x88, 0xac], [0x76, 0xa9, 0x14] + other + [0x88, 0xac];
      var vout := [NULL_OUT, TxOut(60_000_000_000, script)];
      var vout' := Nulls(4) + [TxOut(234_925_952, script)] + Nulls(11) + [TxOut(110_397, script')];
      && Storable(vout) && Storable(vout')
      && Record(curve, Coins(false, vout, 203_998, 1)) == [0x01, 0x04, 0x83, 0x58, 0x00] + hash + [0x8b, 0xb8, 0x5e]
      && Record(curve, Coins(true, vout', 120_891, 1)) ==
           [0x01, 0x09, 0x04, 0x40, 0x86, 0xef, 0x97, 0xd5, 0x79, 0x00] + hash + [0xbb, 0xd1, 0x23, 0x00] + other +
           [0x86, 0xaf, 0x3b]
  {
    SmallRecord(curve, hash);
    LargeRecord(curve, hash, other);
  }

  function Nulls(n: nat): (r: seq<TxOut>)
    ensures |r| == n && forall i :: 0 <= i < n ==> r[i] == NULL_OUT
  {
    seq(n, _ => NULL_OUT)
  }

  function PayTo(hash: seq<int>): seq<int> { [0x76, 0xa9, 0x14] + hash + [0x88, 0xac] }

  lemma PaidOutput(curve: Curve, n: nat, hash: seq<int>)
    requires |hash| == 20
    ensures Output(curve, TxOut(n, PayTo(hash))) == VarInt(Compressed(n)) + ([0] + hash)
  {
    hide VarInt, Compressed;
    ShortTemplates(curve, hash, seq(32, _ => 0), seq(32, _ => 0));
  }

  lemma SmallRecord(curve: Curve, hash: seq<int>)
    requires |hash| == 20 && AreBytes(hash)
    ensures
      var vout := [NULL_OUT, TxOut(60_000_000_000, PayTo(hash))];
      && Storable(vout)
      && Record(curve, Coins(false, vout, 203_998, 1)) == [0x01, 0x04, 0x83, 0x58, 0x00] + hash + [0x8b, 0xb8, 0x5e]
  {
    hide Output, VarInt, Compressed;
    var vout := [NULL_OUT, TxOut(60_000_000_000, PayTo(hash))];
    var c := Coins(false, vout, 203_998, 1);
    PaidOutput(curve, 60_000_000_000, hash);
    CompressedBillions(60);
    SmallForms();
    assert TailBits(vout) == [];
    OutputsStep(curve, vout);
    assert vout[1..] == [vout[1]];
    OutputsStep(curve, [vout[1]]);
    NoOutputs(curve, []);
    assert Outputs(curve, vout) == VarInt(600) + ([0] + hash);
    assert Code(c) == 4;
  }

  lemma SmallForms()
    ensures VarInt(1) == [1] && VarInt(4) == [4] && VarInt(600) == [0x83, 0x58]
    ensures VarInt(203_998) == [0x8b, 0xb8, 0x5e]
  {
    hide VarHead;
    HeadStep(3);
    HeadStep(11);
    HeadStep(1592);
  }

  lemma {:induction false} OutputsAfterNulls(curve: Curve, n: nat, vout: seq<TxOut>)
    requires Storable(vout)
    ensures Storable(Nulls(n) + vout) && Outputs(curve, Nulls(n) + vout) == Outputs(curve, vout)
  {
    var all := Nulls(n) + vout;
    if n == 0 {
      assert all == vout;
    } else {
      assert all[1..] == Nulls(n - 1) + vout;
      OutputsAfterNulls(curve, n - 1, vout);
      OutputsStep(curve, all);
    }
  }

  lemma LargeRecord(curve: Curve, hash: seq<int>, other: seq<int>)
    requires |hash| == |other| == 20 && AreBytes(hash) && AreBytes(other)
    ensures
      var vout := Nulls(4) + [TxOut(234_925_952, PayTo(hash))] + Nulls(11) + [TxOut(110_397, PayTo(other))];
      && Storable(vout)
      && Record(curve, Coins(true, vout, 120_891, 1)) ==
           [0x01, 0x09, 0x04, 0x40, 0x86, 0xef, 0x97, 0xd5, 0x79, 0x00] + hash + [0xbb, 0xd1, 0x23, 0x00] + other +
           [0x86, 0xaf, 0x3b]
  {
    hide VarInt, Outputs, Mask, Used, TailBits, Nulls, Code, PayTo;
    var o, o' := TxOut(234_925_952, PayTo(hash)), TxOut(110_397, PayTo(other));
    var vout := Nulls(4) + [o] + Nulls(11) + [o'];
    LargeOutputs(curve, hash, other);
    LargeForms();
    LargePlaces(vout, o, o');
    LargeMask(vout);
    LargeCode(Coins(true, vout, 120_891, 1));
  }

  lemma LargePlaces(vout: seq<TxOut>, o: TxOut, o': TxOut)
    requires vout == Nulls(4) + [o] + Nulls(11) + [o'] && !o.IsNull() && !o'.IsNull()
    ensures |vout| == 17 && forall i :: 0 <= i < 17 ==> (Unspent(vout, i) <==> i == 4 || i == 16)
  {
  }

  lemma LargeCode(c: Coins)
    requires c.fCoinBase && !Unspent(c.vout, 0) && !Unspent(c.vout, 1) && NonZero(Mask(TailBits(c.vout))) == 2
    ensures Code(c) == 9
  {
  }

  lemma LargeOutputs(curve: Curve, hash: seq<int>, other: seq<int>)
    requires |hash| == |other| == 20 && AreBytes(hash) && AreBytes(other)
    ensures
      var vout := Nulls(4) + [TxOut(234_925_952, PayTo(hash))] + Nulls(11) + [TxOut(110_397, PayTo(other))];
      && Storable(vout)
      && Outputs(curve, vout) == (VarInt(2_114_333_561) + ([0] + hash)) + (VarInt(993_571) + ([0] + other))
  {
    hide Output, VarInt, Outputs, Compressed, Tens;
    var o, o' := TxOut(234_925_952, PayTo(hash)), TxOut(110_397, PayTo(other));
    PaidOutput(curve, o.nValue, hash);
    PaidOutput(curve, o'.nValue, other);
    TensAre();
    CompressedDigits(23_492_595, 2, 0);
    CompressedDigits(11_039, 7, 0);
    assert Compressed(o.nValue) == 2_114_333_561 && Compressed(o'.nValue) == 993_571;
    NoOutputs(curve, []);
    OutputsStep(curve, [o']);
    assert [o'][1..] == [] && Outputs(curve, [o']) == Output(curve, o');
    OutputsAfterNulls(curve, 11, [o']);
    var rest := [o] + (Nulls(11) + [o']);
    assert rest[1..] == Nulls(11) + [o'];
    OutputsStep(curve, rest);
    OutputsAfterNulls(curve, 4, rest);
    assert Nulls(4) + [o] + Nulls(11) + [o'] == Nulls(4) + rest;
  }

  lemma LargeForms()
    ensures VarInt(1) == [1] && VarInt(9) == [9] && VarInt(2_114_333_561) == [0x86, 0xef, 0x97, 0xd5, 0x79]
    ensures VarInt(993_571) == [0xbb, 0xd1, 0x23] && VarInt(120_891) == [0x86, 0xaf, 0x3b]
  {
    hide VarHead;
    HeadStep(6);
    HeadStep(943);
    assert VarHead(943) == [0x86, 0xaf];
    HeadStep(59);
    HeadStep(7761);
    assert VarHead(7761) == [0xbb, 0xd1];
    HeadStep(1007);
    assert VarHead(1007) == [0x86, 0xef];
    HeadStep(129_047);
    assert VarHead(129_047) == [0x86, 0xef, 0x97];
    HeadStep(16_518_229);
    assert VarHead(16_518_229) == [0x86, 0xef, 0x97, 0xd5];
  }

  lemma LargeMask(vout: seq<TxOut>)
    requires |vout| == 17 && forall i :: 0 <= i < 17 ==> (Unspent(vout, i) <==> i == 4 || i == 16)
    ensures Used(Mask(TailBits(vout))) == [0x04, 0x40] && NonZero(Mask(TailBits(vout))) == 2
  {
    hide ByteOf, Pow2;
    var bits := TailBits(vout);
    var low, high := bits[..8], bits[8..];
    assert forall i :: 0 <= i < 15 ==> bits[i] == Unspent(vout, i + 2);
    OneBit(low, 2);
    OneBit(high, 6);
    BytePowers();
    assert Mask(high) == [0x40];
    assert Mask(bits) == [0x04, 0x40];
    assert [0x04, 0x40][1..] == [0x40];
  }

  lemma BytePowers()
    ensures Pow2(2) == 4 && Pow2(6) == 64
  {
    assert Pow2(3) == 8;
    hide Pow2;
    Pow2Sum(3, 3);
  }

  lemma {:induction false} OneBit(bits: seq<bool>, k: nat)
    requires k < |bits| && forall i :: 0 <= i < |bits| ==> bits[i] == (i == k)
    ensures ByteOf(bits) == Pow2(k)
    decreases |bits|
  {
    if k == 0 { BitsBack(bits[1..], |bits|); } else { OneBit(bits[1..], k - 1); }
  }

  // ---------- the undo record of an input ----------

  function UndoRecord(curve: Curve, u: TxInUndo): seq<int>
    requires u.txout.nValue >= 0
  {
    VarInt(u.nHeight * 2 + if u.fCoinBase then 1 else 0) +
    ((if u.nHeight > 0 then VarInt(u.nVersion) else []) + Output(curve, u.txout))
  }

  /** Undo records byte by byte: with the metadata of a coinbase record that was used up, and without any. */
  lemma UndoExamples(curve: Curve, hash: seq<int>)
    requires |hash| == 20
    ensures
      var out := TxOut(60_000_000_000, [0x76, 0xa9, 0x14] + hash + [0x88, 0xac]);
      && UndoRecord(curve, TxInUndo(out, true, 203_998, 4)) == [0x97, 0xf2, 0x3d, 0x04, 0x83, 0x58, 0x00] + hash
      && UndoRecord(curve, TxInUndo(out, false, 0, 0)) == [0x00, 0x83, 0x58, 0x00] + hash
  {
    hide Output, VarInt, Compressed;
    PaidOutput(curve, 60_000_000_000, hash);
    CompressedBillions(60);
    SmallForms();
    UndoForms();
  }

  lemma UndoForms()
    ensures VarInt(0) == [0] && VarInt(407_997) == [0x97, 0xf2, 0x3d]
  {
    hide VarHead;
    HeadStep(23);
    HeadStep(3186);
  }

  function ReadUndo(curve: Curve, s: seq<int>): (r: Read<TxInUndo>)
    requires AreBytes(s)
  {
    match ReadVar(s, 0)
    case Failed => Failed
    case Got(code, s1) =>
      (ReadVarRest(s, 0);
      var version := if code / 2 > 0 then ReadVar(s1, 0) else Got(0, s1);
      match version
      case Failed => Failed
      case Got(v, s2) =>
        (ReadVarRest(s1, 0);
        match ReadOutput(curve, s2)
        case Failed => Failed
        case Got(o, s3) => Got(TxInUndo(o, code % 2 == 1, code / 2, v), s3)))
  }

  /** What is read back of an undo record; it is as it was if and only if a nonzero version goes with a nonzero
      height, and is not negative. */
  lemma UndoRoundTrip(curve: Curve, u: TxInUndo, t: seq<int>)
    requires curve.Lawful() && AreBytes(u.txout.script) && u.txout.nValue >= 0 && AreBytes(t)
    ensures AreBytes(UndoRecord(curve, u) + t)
    ensures ReadUndo(curve, UndoRecord(curve, u) + t) == Got(StoredUndo(u), t)
    ensures StoredUndo(u) == u <==> if u.nHeight > 0 then u.nVersion >= 0 else u.nVersion == 0
  {
    hide VarInt, ReadVar, Output, ReadOutput, Curve.Lawful, AreBytes;
    var code := u.nHeight * 2 + if u.fCoinBase then 1 else 0;
    assert code / 2 == u.nHeight && (code % 2 == 1 <==> u.fCoinBase);
    ReadWrittenOutput(curve, u.txout, t);
    var s2 := Output(curve, u.txout) + t;
    var s1 := (if u.nHeight > 0 then VarInt(u.nVersion) else []) + s2;
    if u.nHeight > 0 {
      if u.nVersion >= 0 { ReadVarInt(u.nVersion, s2); } else { ReadNegative(u.nVersion, s2); }
    } else {
      assert s1 == s2;
    }
    ReadVarInt(code, s1);
    assert UndoRecord(curve, u) + t == VarInt(code) + s1;
  }

  // ---------- the code ----------

  lemma {:induction false} UsedAppend(m: seq<int>, x: int)
    ensures Used(m + [x]) == if x != 0 then m + [x] else Used(m)
    ensures NonZero(m + [x]) == NonZero(m) + if x != 0 then 1 else 0
  {
    assert (m + [x])[..|m|] == m;
    NonZeroSplit(m, [x]);
  }

  /** The number of bytes of the mask up to the last that is not zero, and how many are not zero. */
  method CalcMaskSize(vout: seq<TxOut>) returns (nBytes: nat, nNonzeroBytes: nat)
    ensures nBytes == |Used(Mask(TailBits(vout)))| && nNonzeroBytes == NonZero(Mask(TailBits(vout)))
  {
    hide Used, NonZero, Mask, ByteOf;
    ghost var bits := TailBits(vout);
    ghost var m := Mask(bits);
    nBytes, nNonzeroBytes := 0, 0;
    var b := 0;
    assert m[..0] == [];
    EmptyMask();
    while 2 + b * 8 < |vout|
      invariant 0 <= b <= |m| && (2 + b * 8 >= |vout| ==> b == |m|)
      invariant nBytes == |Used(m[..b])| && nNonzeroBytes == NonZero(m[..b])
    {
      var fZero := IsZeroByte(vout, b);
      UsedAppend(m[..b], m[b]);
      assert m[..b] + [m[b]] == m[..b + 1];
      if !fZero {
        nBytes := b + 1;
        nNonzeroBytes := nNonzeroBytes + 1;
      }
      b := b + 1;
    }
    assert m[..b] == m;
  }

  /** Whether none of the eight outputs is unspent. */
  method IsZeroByte(vout: seq<TxOut>, b: nat) returns (fZero: bool)
    requires 2 + b * 8 < |vout|
    ensures b < |Mask(TailBits(vout))| && (fZero <==> Mask(TailBits(vout))[b] == 0)
  {
    hide Mask, ByteOf;
    ghost var bits := TailBits(vout);
    ghost var chunk := Chunk(bits, b);
    fZero := true;
    var i := 0;
    while i < 8 && 2 + b * 8 + i < |vout|
      invariant 0 <= i <= 8 && i <= |chunk|
      invariant fZero <==> forall j :: 0 <= j < i ==> !chunk[j]
    {
      assert chunk[i] == bits[8 * b + i] == !vout[2 + b * 8 + i].IsNull();
      if !vout[2 + b * 8 + i].IsNull() {
        fZero := false;
      }
      i := i + 1;
    }
    MaskAt(bits, b);
    BitsBack(chunk, 8);
  }

  lemma EmptyMask()
    ensures Used([]) == [] && NonZero([]) == 0
  {
  }

  /** One byte of the mask, bit by bit. */
  method MaskByte(vout: seq<TxOut>, b: nat) returns (chAvail: int)
    requires 2 + b * 8 < |vout|
    ensures b < |Mask(TailBits(vout))| && chAvail == Mask(TailBits(vout))[b]
  {
    hide Mask, ByteOf, Or, Pow2;
    ghost var bits := TailBits(vout);
    ghost var chunk := Chunk(bits, b);
    chAvail := 0;
    var i := 0;
    EmptyByte();
    assert chunk[..0] == [];
    while i < 8 && 2 + b * 8 + i < |vout|
      invariant 0 <= i <= 8 && i <= |chunk| && 0 <= chAvail == ByteOf(chunk[..i])
    {
      BitsBack(chunk[..i], i);
      ByteAppend(chunk[..i], chunk[i]);
      assert chunk[..i] + [chunk[i]] == chunk[..i + 1];
      OrDisjoint(1, chAvail, i);
      assert chunk[i] == bits[8 * b + i] == !vout[2 + b * 8 + i].IsNull();
      if !vout[2 + b * 8 + i].IsNull() {
        chAvail := Or(chAvail, Pow2(i));
      }
      i := i + 1;
    }
    assert chunk[..i] == chunk;
    MaskAt(bits, b);
  }

  lemma EmptyByte()
    ensures ByteOf([]) == 0
  {
  }

  lemma {:induction false} ByteAppend(bits: seq<bool>, x: bool)
    ensures ByteOf(bits + [x]) == ByteOf(bits) + if x then Pow2(|bits|) else 0
    decreases |bits|
  {
    if bits != [] {
      assert (bits + [x])[1..] == bits[1..] + [x];
      ByteAppend(bits[1..], x);
      Pow2Double(|bits| - 1);
    } else {
      assert bits + [x] == [x] && [x][1..] == [];
    }
  }

  /** Writes a record, which must have an unspent output. */
  method Serialize(curve: Curve, c: Coins) returns (s: seq<int>)
    requires Storable(c.vout) && !c.IsPruned()
    ensures s == Record(curve, c)
  {
    hide Used, NonZero, Mask, Outputs, VarInt, TailBits;
    var nMaskSize, nMaskCode := CalcMaskSize(c.vout);
    var fFirst := |c.vout| > 0 && !c.vout[0].IsNull();
    var fSecond := |c.vout| > 1 && !c.vout[1].IsNull();
    if !fFirst && !fSecond { SomeMask(c); }
    assert fFirst || fSecond || nMaskCode > 0;
    var nCode := 8 * (nMaskCode - (if fFirst || fSecond then 0 else 1)) + (if c.fCoinBase then 1 else 0) +
      (if fFirst then 2 else 0) + (if fSecond then 4 else 0);
    var version := WriteVarInt(c.nVersion);
    var code := WriteVarInt(nCode);
    var mask := WriteMask(c.vout, nMaskSize);
    var outs := WriteOutputs(curve, c.vout);
    var height := WriteVarInt(c.nHeight);
    s := version + (code + (mask + (outs + height)));
  }

  method WriteMask(vout: seq<TxOut>, nMaskSize: nat) returns (mask: seq<int>)
    requires nMaskSize == |Used(Mask(TailBits(vout)))|
    ensures mask == Used(Mask(TailBits(vout)))
  {
    hide Used, Mask, TailBits;
    ghost var m := Mask(TailBits(vout));
    mask := [];
    UsedPrefix(vout);
    while |mask| < nMaskSize
      invariant |mask| <= nMaskSize && mask == m[..|mask|]
    {
      var chAvail := MaskByte(vout, |mask|);
      mask := mask + [chAvail];
    }
  }

  method WriteOutputs(curve: Curve, vout: seq<TxOut>) returns (outs: seq<int>)
    requires Storable(vout)
    ensures outs == Outputs(curve, vout)
  {
    hide Outputs, Output;
    outs := [];
    var i := 0;
    assert vout[0..] == vout;
    while i < |vout|
      invariant 0 <= i <= |vout| && Storable(vout[i..]) && outs + Outputs(curve, vout[i..]) == Outputs(curve, vout)
    {
      OutputsStep(curve, vout[i..]);
      assert vout[i..][1..] == vout[i + 1..] && vout[i..][0] == vout[i];
      if !vout[i].IsNull() {
        outs := outs + Output(curve, vout[i]);
      }
      i := i + 1;
    }
    NoOutputs(curve, vout[i..]);
  }

  lemma UsedPrefix(vout: seq<TxOut>)
    ensures
      var m := Mask(TailBits(vout));
      Used(m) == m[..|Used(m)|] && 2 + 8 * (|Used(m)| - 1) < |vout| + (if |Used(m)| == 0 then 9 else 0)
  {
  }

  /** The flags of the outputs: those in the code, then eight for each byte until enough were not zero. */
  method ReadFlags(code: nat, s: seq<int>) returns (r: Read<seq<bool>>)
    requires AreBytes(s)
    ensures
      r == match ReadMask(s, MaskCode(code))
        case Failed => Failed
        case Got(m, rest) => Got(FirstFlags(code) + Unpacked(m), rest)
  {
    hide ReadMask, Unpacked, BitsOf, Pow2, Prefixed;
    var vAvail := [code / 2 % 2 == 1, code / 4 % 2 == 1];
    var nMaskCode := code / 8 + (if vAvail[0] || vAvail[1] then 0 else 1);
    ghost var all := ReadMask(s, nMaskCode);
    ghost var done: seq<int> := [];
    var i := 0;
    assert s[0..] == s;
    StartFlags(s, nMaskCode);
    while nMaskCode > 0
      invariant nMaskCode >= 0 && 0 <= i <= |s| && vAvail == FirstFlags(code) + Unpacked(done)
      invariant all == Prefixed(done, ReadMask(s[i..], nMaskCode))
      decreases |s| - i
    {
      MaskStep(s, i, nMaskCode, done);
      if i == |s| {
        PrefixedFailed(done);
        return Failed;
      }
      var chAvail := s[i];
      i := i + 1;
      var p := 0;
      ghost var before := vAvail;
      while p < 8
        invariant 0 <= p <= 8 && vAvail == before + BitsOf(chAvail, 8)[..p]
      {
        BitAt(chAvail, 8, p);
        vAvail := vAvail + [(chAvail / Pow2(p)) % 2 == 1];
        p := p + 1;
      }
      assert BitsOf(chAvail, 8)[..8] == BitsOf(chAvail, 8);
      done := done + [chAvail];
      if chAvail != 0 {
        nMaskCode := nMaskCode - 1;
      }
    }
    EndFlags(s[i..], done);
    return Got(vAvail, s[i..]);
  }

  ghost function Prefixed(done: seq<int>, r: Read<seq<int>>): Read<seq<int>> {
    match r
    case Failed => Failed
    case Got(m, rest) => Got(done + m, rest)
  }

  lemma PrefixedFailed(done: seq<int>)
    ensures Prefixed(done, Failed) == Failed
  {
  }

  lemma StartFlags(s: seq<int>, n: nat)
    ensures ReadMask(s, n) == Prefixed([], ReadMask(s, n)) && Unpacked([]) == []
  {
    match ReadMask(s, n) {
      case Failed =>
      case Got(m, rest) => assert [] + m == m;
    }
  }

  lemma MaskStep(s: seq<int>, i: nat, n: nat, done: seq<int>)
    requires i <= |s| && n > 0 && AreBytes(s)
    ensures i == |s| ==> ReadMask(s[i..], n) == Failed
    ensures i < |s| ==>
      Prefixed(done, ReadMask(s[i..], n)) ==
        Prefixed(done + [s[i]], ReadMask(s[i + 1..], if s[i] != 0 then n - 1 else n)) &&
      Unpacked(done + [s[i]]) == Unpacked(done) + BitsOf(s[i], 8)
  {
    hide Unpacked;
    if i < |s| {
      assert s[i..][1..] == s[i + 1..] && s[i..][0] == s[i];
      UnpackSplit(done, [s[i]]);
      UnpackOne(s[i]);
      match ReadMask(s[i + 1..], if s[i] != 0 then n - 1 else n) {
        case Failed =>
        case Got(m, rest) => assert done + ([s[i]] + m) == (done + [s[i]]) + m;
      }
    }
  }

  lemma UnpackOne(x: nat)
    ensures Unpacked([x]) == BitsOf(x, 8)
  {
    assert [x][1..] == [];
  }

  lemma EndFlags(s: seq<int>, done: seq<int>)
    ensures Prefixed(done, ReadMask(s, 0)) == Got(done, s)
  {
    assert done + [] == done;
  }

  /** Reads the outputs marked as available. */
  method GetOutputs(curve: Curve, vAvail: seq<bool>, s: seq<int>) returns (r: Read<seq<TxOut>>)
    requires AreBytes(s) && curve.Lawful()
    ensures r == ReadOutputs(curve, vAvail, s)
  {
    hide ReadOutputs, ReadOutput, AreBytes, Curve.Lawful;
    var vout := [];
    var rest := s;
    assert vAvail[0..] == vAvail;
    StartOutputs(curve, vAvail, s);
    var i := 0;
    while i < |vAvail|
      invariant 0 <= i <= |vAvail| && AreBytes(rest)
      invariant ReadOutputs(curve, vAvail, s) == PrefixedOutputs(vout, ReadOutputs(curve, vAvail[i..], rest))
    {
      ReadOutputRest(curve, rest);
      OutputStep(curve, vAvail, i, rest, vout);
      if vAvail[i] {
        var o := ReadOutput(curve, rest);
        if o.Failed? {
          return Failed;
        }
        vout := vout + [o.value];
        rest := o.rest;
      } else {
        vout := vout + [NULL_OUT];
      }
      i := i + 1;
    }
    ReadNone(curve, rest);
    assert vAvail[i..] == [] && vout + [] == vout;
    return Got(vout, rest);
  }

  ghost function PrefixedOutputs(done: seq<TxOut>, r: Read<seq<TxOut>>): Read<seq<TxOut>> {
    match r
    case Failed => Failed
    case Got(v, rest) => Got(done + v, rest)
  }

  lemma StartOutputs(curve: Curve, avail: seq<bool>, s: seq<int>)
    requires AreBytes(s) && curve.Lawful()
    ensures ReadOutputs(curve, avail, s) == PrefixedOutputs([], ReadOutputs(curve, avail, s))
  {
    hide ReadOutputs;
    match ReadOutputs(curve, avail, s) {
      case Failed =>
      case Got(v, rest) => assert [] + v == v;
    }
  }

  lemma OutputStep(curve: Curve, avail: seq<bool>, i: nat, s: seq<int>, done: seq<TxOut>)
    requires AreBytes(s) && curve.Lawful() && i < |avail|
    requires avail[i] && ReadOutput(curve, s).Got? ==> AreBytes(ReadOutput(curve, s).rest)
    ensures avail[i] && ReadOutput(curve, s).Failed? ==> ReadOutputs(curve, avail[i..], s) == Failed
    ensures !(avail[i] && ReadOutput(curve, s).Failed?) ==>
      var o := if avail[i] then ReadOutput(curve, s).value else NULL_OUT;
      var rest := if avail[i] then ReadOutput(curve, s).rest else s;
      PrefixedOutputs(done, ReadOutputs(curve, avail[i..], s)) ==
        PrefixedOutputs(done + [o], ReadOutputs(curve, avail[i + 1..], rest))
  {
    hide ReadOutput, AreBytes;
    assert avail[i..][1..] == avail[i + 1..] && avail[i..][0] == avail[i];
    if !(avail[i] && ReadOutput(curve, s).Failed?) {
      var o := if avail[i] then ReadOutput(curve, s).value else NULL_OUT;
      var rest := if avail[i] then ReadOutput(curve, s).rest else s;
      match ReadOutputs(curve, avail[i + 1..], rest) {
        case Failed =>
        case Got(v, _) => assert done + ([o] + v) == (done + [o]) + v;
      }
    }
  }

  /** Reads a record. */
  method Unserialize(curve: Curve, s: seq<int>) returns (r: Read<Coins>)
    requires AreBytes(s) && curve.Lawful()
    ensures r == ReadRecord(curve, s)
  {
    hide ReadVar, ReadMask, ReadOutputs, Unpacked, FirstFlags, MaskCode, Curve.Lawful, AreBytes, Trim;
    var version := GetVarInt(s);
    ReadVarRest(s, 0);
    if version.Failed? { return Failed; }
    var code := GetVarInt(version.rest);
    ReadVarRest(version.rest, 0);
    if code.Failed? { return Failed; }
    var flags := ReadFlags(code.value, code.rest);
    ReadMaskRest(code.rest, MaskCode(code.value));
    if flags.Failed? { return Failed; }
    var outs := GetOutputs(curve, flags.value, flags.rest);
    ReadOutputsRest(curve, flags.value, flags.rest);
    if outs.Failed? { return Failed; }
    var height := GetVarInt(outs.rest);
    if height.Failed? { return Failed; }
    var vout := Cleanup(outs.value);
    return Got(Coins(code.value % 2 == 1, vout, height.value, version.value), height.rest);
  }
}
