/** The compact form of a 256-bit target: one byte of size and a 23-bit mantissa. */
module CompactTarget {
  import opened LimbMath
  import opened ArithUint

  // ---------- the two encodings as numbers ----------

  function Size(c: nat): nat { c / 0x100_0000 }

  function Word(c: nat): nat { c % 0x80_0000 }

  function SignBit(c: nat): bool { (c / 0x80_0000) % 2 == 1 }

  /** The number a compact value stands for, before any reduction to 256 bits. */
  function Decoded(c: nat): (v: nat) {
    if Size(c) <= 3 then
      NonNegative(Word(c), Pow2(8 * (3 - Size(c))));
      Word(c) / Pow2(8 * (3 - Size(c)))
    else
      NonNegative(Word(c), Pow2(8 * (Size(c) - 3)));
      Word(c) * Pow2(8 * (Size(c) - 3))
  }

  lemma NonNegative(x: nat, p: nat)
    requires p >= 1
    ensures x * p >= 0 && x / p >= 0
  {
    var q, r := x / p, x % p;
    assert x == q * p + r;
    assert q <= -1 ==> q * p + p <= 0;
  }

  function Bytes(x: nat): nat { if x == 0 then 0 else 1 + Bytes(x / 256) }

  /** The three highest bytes of an n-byte number. */
  function Mantissa(x: nat, n: nat): nat {
    if n <= 3 then
      NonNegative(x, Pow2(8 * (3 - n)));
      x * Pow2(8 * (3 - n))
    else
      NonNegative(x, Pow2(8 * (n - 3)));
      x / Pow2(8 * (n - 3))
  }

  function Encoded(x: nat): nat {
    var n, m := Bytes(x), Mantissa(x, Bytes(x));
    if m >= 0x80_0000 then (n + 1) * 0x100_0000 + m / 256 else n * 0x100_0000 + m
  }

  /** Compact values and the numbers they stand for. */
  lemma CompactExamples()
    ensures Decoded(0x0112_3456) == 0x12 && Encoded(0x12) == 0x0112_0000
    ensures Decoded(0x0212_3456) == 0x1234 && Encoded(0x1234) == 0x0212_3400
    ensures Decoded(0x0312_3456) == 0x12_3456 == Decoded(0x0392_3456) && Encoded(0x12_3456) == 0x0312_3456
    ensures Decoded(0x0412_3456) == 0x1234_5600 && Encoded(0x1234_5600) == 0x0412_3456
    ensures Decoded(0x0500_9234) == 0x9234_0000 && Encoded(0x9234_0000) == 0x0500_9234
    ensures Decoded(0x0200_8000) == 0x80 && Encoded(0x80) == 0x0200_8000
    ensures SignBit(0x0492_3456) && !SignBit(0x0412_3456)
  {
    hide Pow2;
    SmallPowers();
    ByteSizes();
  }

  lemma ByteSizes()
    ensures Bytes(0x12) == 1 && Bytes(0x80) == 1 && Bytes(0x1234) == 2 && Bytes(0x12_3456) == 3
    ensures Bytes(0x1234_5600) == 4 && Bytes(0x9234_0000) == 4
  {
    assert Bytes(0x92) == 1 && Bytes(0x9234) == 2 && Bytes(0x92_3400) == 3;
    assert Bytes(0x1234_56) == 3;
  }

  // ---------- facts about sizes ----------

  lemma Pow2Byte(k: nat)
    ensures Pow2(8 * (k + 1)) == 256 * Pow2(8 * k)
  {
    hide Pow2;
    Pow2Sum(8 * k, 8);
    SmallPowers();
  }

  lemma SmallPowers()
    ensures Pow2(0) == 1 && Pow2(8) == 256 && Pow2(16) == 0x1_0000 && Pow2(24) == 0x100_0000
  {
    assert Pow2(4) == 16;
    hide Pow2;
    Pow2Sum(4, 4);
    Pow2Sum(8, 8);
    Pow2Sum(16, 8);
    Pow2Zero();
  }

  /** Between which powers of 256 a number of n bytes lies. */
  lemma {:induction false} BytesBound(x: nat)
    ensures x < Pow2(8 * Bytes(x)) && (x > 0 ==> Bytes(x) > 0 && Pow2(8 * (Bytes(x) - 1)) <= x)
    decreases x
  {
    hide Pow2;
    if x == 0 {
      SmallPowers();
    } else {
      BytesBound(x / 256);
      Pow2Byte(Bytes(x / 256));
      if x / 256 == 0 {
        SmallPowers();
      } else {
        Pow2Byte(Bytes(x / 256) - 1);
      }
    }
  }

  lemma BytesUnique(x: nat, n: nat)
    requires n > 0 && Pow2(8 * (n - 1)) <= x < Pow2(8 * n)
    ensures Bytes(x) == n
  {
    hide Pow2;
    BytesBound(x);
    if Bytes(x) < n { Pow2Mono(8 * Bytes(x), 8 * (n - 1)); }
    if n < Bytes(x) { Pow2Mono(8 * n, 8 * (Bytes(x) - 1)); }
  }

  /** The size in bytes follows from the size in bits. */
  lemma BytesOfBits(x: nat, bits: nat)
    requires BitLength(x, bits)
    ensures Bytes(x) == (bits + 7) / 8
  {
    hide Pow2;
    if bits > 0 {
      var n := (bits + 7) / 8;
      Pow2Mono(8 * (n - 1), bits - 1);
      Pow2Mono(bits, 8 * n);
      BytesUnique(x, n);
    }
  }

  // ---------- what the compact form keeps of a number ----------

  /** U is the weight of the last kept bit of x, n the size byte. */
  ghost predicate Scaled(x: nat, n: nat) {
    n > 3 && 0x8000 * Pow2(8 * (n - 3)) <= x < 0x80_0000 * Pow2(8 * (n - 3))
  }

  lemma ScaledUnique(x: nat, m: nat, n: nat)
    requires Scaled(x, m) && Scaled(x, n)
    ensures m == n
  {
    hide Pow2;
    if m < n { Pow2Byte(m - 3); Pow2Mono(8 * (m + 1 - 3), 8 * (n - 3)); }
    if n < m { Pow2Byte(n - 3); Pow2Mono(8 * (n + 1 - 3), 8 * (m - 3)); }
  }

  lemma QuotientBounds(x: nat, u: nat, lo: nat, hi: nat)
    requires u > 0 && lo * u <= x < hi * u
    ensures lo <= x / u < hi
  {
    var q, r := x / u, x % u;
    assert x == q * u + r;
    assert (q + 1) * u == q * u + u;
    if q < lo { MulLe(q + 1, lo, u); }
    if q >= hi { MulLe(hi, q, u); }
  }

  lemma DivTwice(x: nat, u: nat)
    requires u > 0
    ensures (x / u) / 256 == x / (256 * u)
  {
    var q, r := x / u, x % u;
    var t, s := q / 256, q % 256;
    assert x == q * u + r && q == 256 * t + s;
    assert (256 * t + s) * u == t * (256 * u) + s * u;
    MulLe(s, 255, u);
    assert 0 <= s * u;
    DivModUnique(x, 256 * u, t, s * u + r);
  }

  /** A number of at least 24 bits is cut to a mantissa of 16 to 23 bits; a smaller one is kept whole. */
  ghost predicate Keeps(x: nat, c: nat) {
    !SignBit(c) &&
    if x < 0x80_0000 then Size(c) <= 3 && Word(c) == x * Pow2(8 * (3 - Size(c)))
    else Scaled(x, Size(c)) && Word(c) == x / Pow2(8 * (Size(c) - 3))
  }

  /** The fields of a compact value. */
  lemma Split(c: nat, n: nat, m: nat)
    requires c == n * 0x100_0000 + m && m < 0x80_0000
    ensures Size(c) == n && Word(c) == m && !SignBit(c)
  {
    DivModUnique(c, 0x100_0000, n, m);
    DivModUnique(c, 0x80_0000, 2 * n, m);
  }

  lemma EncodedKeeps(x: nat)
    ensures Keeps(x, Encoded(x))
  {
    hide Pow2, Keeps, Encoded;
    var n := Bytes(x);
    BytesBound(x);
    if n <= 3 {
      SmallNumber(x, n);
    } else {
      SmallPowers();
      Pow2Sum(8 * (n - 3), 24);
      Pow2Sum(8 * (n - 3), 16);
      Pow2Mono(24, 8 * (n - 1));
      LargeNumber(x, n, Pow2(8 * (n - 3)));
    }
  }

  lemma SmallNumber(x: nat, n: nat)
    requires n == Bytes(x) <= 3 && x < Pow2(8 * n)
    ensures Keeps(x, Encoded(x))
  {
    hide Pow2;
    SmallPowers();
    if n == 3 {
      assert Mantissa(x, n) == x;
      if x < 0x80_0000 { Split(Encoded(x), 3, x); } else { Split(Encoded(x), 4, x / 256); }
    } else if n == 2 {
      assert Mantissa(x, n) == x * 256;
      if x < 0x8000 { Split(Encoded(x), 2, x * 256); } else { Split(Encoded(x), 3, x); }
    } else if n == 1 {
      assert Mantissa(x, n) == x * 0x1_0000;
      if x < 0x80 { Split(Encoded(x), 1, x * 0x1_0000); } else { Split(Encoded(x), 2, x * 256); }
    } else {
      assert x == 0;
    }
  }

  lemma LargeNumber(x: nat, n: nat, u: nat)
    requires n == Bytes(x) > 3 && u == Pow2(8 * (n - 3)) && 0x1_0000 * u <= x < 0x100_0000 * u && x >= 0x100_0000
    ensures Keeps(x, Encoded(x))
  {
    hide Pow2;
    QuotientBounds(x, u, 0x1_0000, 0x100_0000);
    var m := x / u;
    assert Mantissa(x, n) == m;
    EncodedParts(x);
    hide Encoded, Mantissa, Bytes;
    if m < 0x80_0000 {
      Split(Encoded(x), n, m);
      CutAt(x, u, 0x80_0000);
    } else {
      Split(Encoded(x), n + 1, m / 256);
      DivTwice(x, u);
      Pow2Byte(n - 3);
      CutAt(x, u, 0x80_0000);
    }
  }

  lemma CutAt(x: nat, u: nat, k: nat)
    requires u > 0
    ensures x / u < k <==> x < k * u
  {
    var q, r := x / u, x % u;
    assert x == q * u + r;
    assert (q + 1) * u == q * u + u;
    if q < k { MulLe(q + 1, k, u); } else { MulLe(k, q, u); }
  }

  lemma EncodedParts(v: nat)
    ensures
      var n, m := Bytes(v), Mantissa(v, Bytes(v));
      Encoded(v) == if m >= 0x80_0000 then (n + 1) * 0x100_0000 + m / 256 else n * 0x100_0000 + m
  {
  }

  lemma CutDown(x: nat, u: nat, lo: nat)
    requires u > 0 && lo * u <= x
    ensures lo * u <= (x / u) * u <= x < (x / u) * u + u
    ensures (x / u) * u / u == x / u
  {
    var q, r := x / u, x % u;
    assert x == q * u + r;
    if q < lo { MulLe(q + 1, lo, u); }
    assert (q + 1) * u == q * u + u;
    assert lo <= q;
    MulLe(lo, q, u);
    DivModUnique(q * u, u, q, 0);
  }

  /** What the encoding of a number stands for: the number itself, or the number cut to a multiple of
      a unit that is at most its 2^15th part. */
  lemma Rounding(x: nat)
    ensures x < 0x80_0000 ==> Decoded(Encoded(x)) == x
    ensures x >= 0x80_0000 ==>
      var n := Size(Encoded(x));
      Scaled(x, n) &&
      var u := Pow2(8 * (n - 3));
      Decoded(Encoded(x)) == (x / u) * u
  {
    hide Pow2, Encoded;
    var c := Encoded(x);
    EncodedKeeps(x);
    if x < 0x80_0000 {
      var p := Pow2(8 * (3 - Size(c)));
      DivModUnique(x * p, p, x, 0);
    }
  }

  /** Decoding an encoded number raises neither flag, loses less than a 2^15th, and encodes the same. */
  lemma CompactRoundTrip(x: nat)
    ensures !SignBit(Encoded(x))
    ensures Decoded(Encoded(x)) <= x && 0x8000 * (x - Decoded(Encoded(x))) <= x
    ensures Encoded(Decoded(Encoded(x))) == Encoded(x)
  {
    hide Pow2, Encoded, Decoded;
    EncodedKeeps(x);
    Rounding(x);
    if x >= 0x80_0000 {
      var n := Size(Encoded(x));
      var u := Pow2(8 * (n - 3));
      var y := (x / u) * u;
      CutDown(x, u, 0x8000);
      Pow2Byte(n - 4);
      EncodedKeeps(y);
      assert Scaled(y, n);
      assert y >= 0x80_0000;
      ScaledUnique(y, n, Size(Encoded(y)));
      Fields(Encoded(x));
      Fields(Encoded(y));
    }
  }

  lemma Fields(c: nat)
    requires !SignBit(c)
    ensures c == Size(c) * 0x100_0000 + Word(c)
  {
    var h := c / 0x80_0000;
    assert c == h * 0x80_0000 + Word(c) && h == 2 * (h / 2);
    DivModUnique(c, 0x100_0000, h / 2, Word(c));
  }

  /** No compact value stands for a closer number from below. */
  lemma EncodedIsBest(x: nat, c: nat)
    requires Decoded(c) <= x
    ensures Decoded(c) <= Decoded(Encoded(x))
  {
    hide Pow2, Encoded, Decoded;
    Rounding(x);
    if x >= 0x80_0000 {
      var n, s, w := Size(Encoded(x)), Size(c), Word(c);
      var u := Pow2(8 * (n - 3));
      CutDown(x, u, 0x8000);
      if s >= n {
        LargerSize(c, n);
        MultipleBelow(x, u, w * Pow2(8 * (s - n)));
      } else {
        Pow2Byte(n - 4);
        SmallerSize(c, n - 1);
      }
    }
  }

  lemma LargerSize(c: nat, n: nat)
    requires 3 < n <= Size(c)
    ensures Decoded(c) == (Word(c) * Pow2(8 * (Size(c) - n))) * Pow2(8 * (n - 3))
  {
    hide Pow2;
    var s, w := Size(c), Word(c);
    Pow2Sum(8 * (n - 3), 8 * (s - n));
    var u, t := Pow2(8 * (n - 3)), Pow2(8 * (s - n));
    assert w * (u * t) == (w * t) * u;
  }

  lemma SmallerSize(c: nat, n: nat)
    requires Size(c) <= n && 3 <= n
    ensures Decoded(c) < 0x80_0000 * Pow2(8 * (n - 3))
  {
    hide Pow2;
    var s, w := Size(c), Word(c);
    var h := Pow2(8 * (n - 3));
    if s > 3 {
      Pow2Mono(8 * (s - 3), 8 * (n - 3));
      MulLe(Pow2(8 * (s - 3)), h, w);
      MulLe(w + 1, 0x80_0000, h);
      assert (w + 1) * h == w * h + h;
    } else {
      DivShrinks(w, Pow2(8 * (3 - s)));
    }
  }

  lemma DivShrinks(w: nat, p: nat)
    requires p > 0
    ensures w / p <= w
  {
    var q, r := w / p, w % p;
    assert w == q * p + r;
    MulLe(1, p, q);
  }

  lemma MultipleBelow(x: nat, u: nat, k: nat)
    requires u > 0 && k * u <= x
    ensures k * u <= (x / u) * u
  {
    CutDown(x, u, k);
  }

  /** Rounding keeps the order. */
  lemma CompactMonotone(x: nat, y: nat)
    requires x <= y
    ensures Decoded(Encoded(x)) <= Decoded(Encoded(y))
  {
    hide *;
    CompactRoundTrip(x);
    EncodedIsBest(y, Encoded(x));
  }

  // ---------- the methods ----------

  /** Assigns a 64-bit number. */
  method Assign(pn: array<limb>, b: nat)
    requires pn.Length >= 2 && b < BASE * BASE
    modifies pn
    ensures Val(pn[..]) == b
  {
    pn[0], pn[1] := b % BASE, b / BASE;
    var i := 2;
    while i < pn.Length
      invariant 2 <= i <= pn.Length
      invariant pn[0] == b % BASE && pn[1] == b / BASE
      invariant forall l :: 2 <= l < i ==> pn[l] == 0
    {
      pn[i] := 0;
      i := i + 1;
    }
    TwoLimbs(pn[..]);
  }

  lemma TwoLimbs(s: seq<limb>)
    requires |s| >= 2
    ensures Val(s) == s[0] + s[1] * BASE + BASE * BASE * Val(s[2..])
    ensures (forall l :: 2 <= l < |s| ==> s[l] == 0) ==> Val(s) == s[0] + s[1] * BASE
  {
    ValSplit(s, 1);
    assert s[..1] == [s[0]];
    assert Val([s[0]]) == s[0] by { assert [s[0]][..0] == []; }
    assert B(1) == BASE && B(2) == BASE * BASE;
    if forall l :: 2 <= l < |s| ==> s[l] == 0 { AllZero(s[2..]); }
  }

  /** The lowest 64 bits. */
  method GetLow64(pn: array<limb>) returns (r: nat)
    requires pn.Length >= 2
    ensures r == Val(pn[..]) % (BASE * BASE)
  {
    hide Val, B, Pow2, Or;
    r := Or(pn[0], pn[1] * BASE);
    Pow2Of32();
    OrDisjoint(pn[1], pn[0], 32);
    TwoLimbs(pn[..]);
    assert pn[..][2..] == pn[2..];
    DivModUnique(Val(pn[..]), BASE * BASE, Val(pn[2..]), r);
  }

  /** When the decoded number needs more than 256 bits. */
  lemma OverflowGuard(w: nat, size: nat)
    requires w < 0x80_0000 && size > 3
    ensures w * Pow2(8 * (size - 3)) >= B(8) <==>
      (w != 0 && (size > 34 || (w > 0xff && size > 33) || (w > 0xffff && size > 32)))
  {
    hide Pow2, B;
    BIsPow2(8);
    var u := Pow2(8 * (size - 3));
    Pow2Byte(31);
    Pow2Byte(30);
    Pow2Byte(29);
    if size > 34 {
      Pow2Mono(256, 8 * (size - 3));
      if w > 0 { MulLe(1, w, u); }
    } else if size > 33 {
      Threshold(w, u, 0x100);
    } else if size > 32 {
      Threshold(w, u, 0x1_0000);
    } else {
      Pow2Mono(8 * (size - 3), 8 * 29);
      MulLe(w, 0x80_0000, u);
    }
  }

  lemma Threshold(w: nat, u: nat, k: nat)
    requires u > 0
    ensures w * u >= k * u <==> w >= k
  {
    if w >= k { MulLe(k, w, u); } else { MulLe(w + 1, k, u); assert (w + 1) * u == w * u + u; }
  }

  /** Reads a compact value.  The number is reduced to 256 bits, and overflow says whether that lost anything. */
  method SetCompact(pn: array<limb>, compact: limb) returns (negative: bool, overflow: bool)
    requires pn.Length == 8
    modifies pn
    ensures Val(pn[..]) == Decoded(compact) % B(8)
    ensures overflow <==> Decoded(compact) >= B(8)
    ensures negative <==> SignBit(compact) && Decoded(compact) != 0
  {
    hide Val, B, Pow2;
    var size, word := compact / 0x100_0000, compact % 0x80_0000;
    if size <= 3 {
      DivShrinks(word, Pow2(8 * (3 - size)));
      word := word / Pow2(8 * (3 - size));
      Assign(pn, word);
      ValBound(pn[..]);
      InRange(word, B(8));
    } else {
      Assign(pn, word);
      ShiftLeft(pn, 8 * (size - 3));
      OverflowGuard(word, size);
      ZeroProduct(word, Pow2(8 * (size - 3)));
    }
    negative := word != 0 && (compact / 0x80_0000) % 2 == 1;
    overflow := word != 0 && (size > 34 || (word > 0xff && size > 33) || (word > 0xffff && size > 32));
  }

  lemma ZeroProduct(w: nat, p: nat)
    requires p >= 1
    ensures w * p == 0 <==> w == 0
  {
  }

  /** A mantissa has at most 24 bits and a size at most 32 bytes. */
  lemma MantissaFits(v: nat)
    requires v < B(8)
    ensures Bytes(v) <= 32 && Mantissa(v, Bytes(v)) < 0x100_0000
    ensures Bytes(v) <= 3 ==> v < 0x100_0000
  {
    hide Pow2, B;
    var n := Bytes(v);
    BytesBound(v);
    BIsPow2(8);
    SmallPowers();
    if n > 32 { Pow2Mono(256, 8 * (n - 1)); }
    if n <= 3 {
      Pow2Sum(8 * n, 8 * (3 - n));
      Pow2Mono(8 * n, 24);
      var p := Pow2(8 * (3 - n));
      MulLe(v + 1, Pow2(8 * n), p);
      assert (v + 1) * p == v * p + p;
    } else {
      Pow2Sum(8 * (n - 3), 24);
      QuotientBounds(v, Pow2(8 * (n - 3)), 0, 0x100_0000);
    }
  }

  /** Setting a clear bit adds its weight. */
  lemma {:induction false} OrBit(h: nat, m: nat, k: nat)
    requires m < Pow2(k)
    ensures Or(h * Pow2(k + 1) + m, Pow2(k)) == h * Pow2(k + 1) + m + Pow2(k)
    decreases k
  {
    if k == 0 {
      hide Or;
      OrZero(h);
      OrUnfold(2 * h, 1);
    } else {
      hide Or;
      OrBit(h, m / 2, k - 1);
      Pow2Double(k);
      ScaleRight(h, Pow2(k), 2);
      OrBitStep(h * Pow2(k), m, Pow2(k - 1));
    }
  }

  lemma OrBitStep(t: nat, m: nat, p: nat)
    requires Or(t + m / 2, p) == t + m / 2 + p
    ensures Or(2 * t + m, 2 * p) == 2 * t + m + 2 * p
  {
    hide Or;
    OrUnfold(2 * t + m, 2 * p);
    assert (2 * t + m) / 2 == t + m / 2;
  }

  lemma OrUnfold(x: nat, y: nat)
    ensures Or(x, y) == 2 * Or(x / 2, y / 2) + (if x % 2 == 1 || y % 2 == 1 then 1 else 0)
  {
  }

  /** The three highest bytes, through 64-bit and 32-bit truncation that loses nothing. */
  method TopBytes(pn: array<limb>, size: nat) returns (m: nat)
    requires pn.Length == 8 && 0 <= Val(pn[..]) && size == Bytes(Val(pn[..]))
    ensures m == Mantissa(Val(pn[..]), size) < 0x100_0000
  {
    hide Val, B, Pow2, Bytes;
    ghost var v := Val(pn[..]);
    ValBound(pn[..]);
    MantissaFits(v);
    if size <= 3 {
      var low := GetLow64(pn);
      InRange(v, BASE * BASE);
      m := low * Pow2(8 * (3 - size));
      assert m == Mantissa(v, size);
      InRange(m, BASE * BASE);
      InRange(m, BASE);
      m := m % (BASE * BASE) % BASE;
    } else {
      var bn := Copy(pn);
      ShiftRight(bn, 8 * (size - 3));
      assert Val(bn[..]) == Mantissa(v, size);
      m := GetLow64(bn);
      InRange(Val(bn[..]), BASE * BASE);
      InRange(m, BASE);
      m := m % BASE;
    }
  }

  /** Writes the compact value; the sign is kept only when there is something to negate. */
  method GetCompact(pn: array<limb>, negative: bool) returns (compact: limb)
    requires pn.Length == 8
    ensures 0 <= Val(pn[..])
    ensures
      var c := Encoded(Val(pn[..]));
      compact == c + (if negative && Word(c) != 0 then 0x80_0000 else 0)
  {
    hide Val, B, Pow2, Or, Encoded, BitLength, Bytes, Mantissa;
    ghost var v := Val(pn[..]);
    ValBound(pn[..]);
    var bits := Bits(pn);
    BytesOfBits(v, bits);
    MantissaFits(v);
    var size := (bits + 7) / 8;
    var m := TopBytes(pn, size);
    EncodedParts(v);
    if (m / 0x80_0000) % 2 == 1 {
      m := m / 256;
      size := size + 1;
    }
    assert m < 0x80_0000 && size < 256;
    Split(Encoded(v), size, m);
    compact := Packed(m, size, negative);
  }

  method Packed(m: nat, size: nat, negative: bool) returns (compact: limb)
    requires m < 0x80_0000 && size < 256
    ensures compact == size * 0x100_0000 + m + (if negative && m != 0 then 0x80_0000 else 0)
  {
    hide Pow2, Or;
    SmallPowers();
    OrDisjoint(size, m, 24);
    compact := Or(m, size * 0x100_0000);
    if negative && compact % 0x80_0000 != 0 {
      OrTop(size, m);
      compact := Or(compact, 0x80_0000);
    }
  }

  lemma OrTop(size: nat, m: nat)
    requires m < 0x80_0000
    ensures Or(size * 0x100_0000 + m, 0x80_0000) == size * 0x100_0000 + m + 0x80_0000
  {
    hide Pow2, Or;
    SmallPowers();
    Pow2Double(23);
    OrBit(size, m, 23);
  }
}
