/** Numbers as little-endian sequences of 32-bit limbs, of any length. */
module LimbMath {

  const BASE := 0x1_0000_0000

  type limb = x: int | 0 <= x < BASE

  /** BASE to the power n. */
  function B(n: nat): (r: nat)
    ensures r >= 1
  {
    if n == 0 then 1 else BASE * B(n - 1)
  }

  function Pow2(n: nat): (r: nat)
    ensures r >= 1
  {
    if n == 0 then 1 else 2 * Pow2(n - 1)
  }

  /** The number that the limbs stand for. */
  function Val(s: seq<limb>): int {
    if s == [] then 0 else Val(s[..|s| - 1]) + s[|s| - 1] * B(|s| - 1)
  }

  lemma ValPrefix(s: seq<limb>, i: nat)
    requires i < |s|
    ensures Val(s[..i + 1]) == Val(s[..i]) + s[i] * B(i)
  {
    assert s[..i + 1][..i] == s[..i];
  }

  lemma {:induction false} ValBound(s: seq<limb>)
    ensures 0 <= Val(s) < B(|s|)
    decreases |s|
  {
    if s != [] {
      var n := |s| - 1;
      ValBound(s[..n]);
      assert s[n] * B(n) <= (BASE - 1) * B(n) by { MulLe(s[n], BASE - 1, B(n)); }
      assert 0 <= s[n] * B(n);
    }
  }

  lemma MulLe(a: int, b: int, c: int)
    requires a <= b && 0 <= c
    ensures a * c <= b * c
  {
  }

  lemma {:induction false} ValUpdate(s: seq<limb>, j: nat, x: limb)
    requires j < |s|
    ensures Val(s[j := x]) == Val(s) + (x - s[j]) * B(j)
    decreases |s|
  {
    var n := |s| - 1;
    if j == n {
      assert s[j := x][..n] == s[..n];
    } else {
      assert s[j := x][..n] == s[..n][j := x];
      ValUpdate(s[..n], j, x);
    }
  }

  lemma {:induction false} ValConcat(a: seq<limb>, b: seq<limb>)
    ensures Val(a + b) == Val(a) + B(|a|) * Val(b)
    decreases |b|
  {
    if b == [] {
      assert a + b == a;
    } else {
      var n := |b| - 1;
      assert (a + b)[..|a| + n] == a + b[..n];
      ValConcat(a, b[..n]);
      BSum(|a|, n);
      var ab := a + b;
      assert Val(ab) == Val(ab[..|a| + n]) + b[n] * B(|a| + n);
      assert Val(b) == Val(b[..n]) + b[n] * B(n);
      hide Val, B;
      Distribute(B(|a|), B(n), b[n], Val(b[..n]));
    }
  }

  lemma Distribute(p: int, q: int, x: int, v: int)
    ensures p * v + x * (p * q) == p * (v + x * q)
  {
    assert x * (p * q) == p * (x * q);
    assert p * (v + x * q) == p * v + p * (x * q);
  }

  lemma ScaleRight(p: int, q: int, c: int)
    ensures c * (p * q) == p * (c * q)
  {
  }

  lemma Pow2Zero()
    ensures Pow2(0) == 1
  {
  }

  lemma Pow2Double(t: nat)
    ensures Pow2(t + 1) == 2 * Pow2(t)
  {
  }

  lemma BNext(n: nat)
    ensures B(n + 1) == BASE * B(n)
  {
  }

  lemma {:induction false} BSum(m: nat, n: nat)
    ensures B(m + n) == B(m) * B(n)
    decreases n
  {
    if n > 0 {
      BSum(m, n - 1);
      BNext(m + n - 1);
      BNext(n - 1);
      hide B;
      ScaleRight(B(m), B(n - 1), BASE);
    }
  }

  lemma {:induction false} Pow2Sum(m: nat, n: nat)
    ensures Pow2(m + n) == Pow2(m) * Pow2(n)
    decreases n
  {
    if n > 0 {
      Pow2Sum(m, n - 1);
      Pow2Double(m + n - 1);
      Pow2Double(n - 1);
      hide Pow2;
      ScaleRight(Pow2(m), Pow2(n - 1), 2);
    }
  }

  lemma {:induction false} BIsPow2(n: nat)
    ensures B(n) == Pow2(32 * n)
    decreases n
  {
    if n > 0 {
      BIsPow2(n - 1);
      Pow2Sum(32 * (n - 1), 32);
      assert Pow2(32) == BASE by { Pow2Of32(); }
    }
  }

  lemma Pow2Of32()
    ensures Pow2(32) == BASE
  {
    assert Pow2(8) == 256;
    Pow2Sum(8, 8);
    Pow2Sum(16, 16);
  }

  lemma {:induction false} Pow2Mono(m: nat, n: nat)
    requires m <= n
    ensures Pow2(m) <= Pow2(n)
    decreases n - m
  {
    if m < n { Pow2Mono(m + 1, n); }
  }

  /** A quotient and remainder are determined by their ranges. */
  lemma DivModUnique(x: int, n: int, q: int, r: int)
    requires n > 0 && x == q * n + r && 0 <= r < n
    ensures x / n == q && x % n == r
  {
    var q', r' := x / n, x % n;
    assert x == q' * n + r';
    assert (q - q') * n == r' - r;
    assert q - q' >= 1 ==> (q - q') * n >= n;
    assert q' - q >= 1 ==> (q' - q) * n >= n;
  }

  /** Equal up to a multiple of n, with the left one in range. */
  lemma ModByMultiple(v: int, x: int, k: int, n: int)
    requires n > 0 && 0 <= v < n && v + k * n == x
    ensures v == x % n
  {
    DivModUnique(x, n, k, v);
  }

  // ---------- bits ----------

  /** Bitwise or. */
  function Or(x: nat, y: nat): nat
    decreases x + y
  {
    if x == 0 && y == 0 then 0
    else 2 * Or(x / 2, y / 2) + (if x % 2 == 1 || y % 2 == 1 then 1 else 0)
  }

  lemma {:induction false} OrZero(x: nat)
    ensures Or(x, 0) == x && Or(0, x) == x
    decreases x
  {
    if x > 0 { OrZero(x / 2); }
  }

  /** On disjoint bit ranges, or is addition. */
  lemma {:induction false} OrDisjoint(h: nat, y: nat, k: nat)
    requires y < Pow2(k)
    ensures Or(h * Pow2(k), y) == h * Pow2(k) + y
    ensures Or(y, h * Pow2(k)) == h * Pow2(k) + y
    decreases k
  {
    if k == 0 {
      OrZero(h * Pow2(k));
    } else {
      var x, p := h * Pow2(k), Pow2(k - 1);
      assert x == 2 * (h * p) by { assert h * (2 * p) == 2 * (h * p); }
      OrDisjoint(h, y / 2, k - 1);
      if x == 0 && y == 0 {
      } else {
        assert x / 2 == h * p && x % 2 == 0;
        assert y == 2 * (y / 2) + y % 2;
      }
    }
  }

  /** The number of bits of a number. */
  ghost predicate BitLength(v: int, n: nat) {
    if n == 0 then v == 0 else Pow2(n - 1) <= v < Pow2(n)
  }

  // ---------- comparing ----------

  /** A number split at limb i. */
  lemma ValSplit(s: seq<limb>, i: nat)
    requires i < |s|
    ensures Val(s) == Val(s[..i]) + s[i] * B(i) + B(i + 1) * Val(s[i + 1..])
  {
    assert s == s[..i + 1] + s[i + 1..];
    ValConcat(s[..i + 1], s[i + 1..]);
    ValPrefix(s, i);
  }

  /** The highest limb that differs decides. */
  lemma HighestDecides(a: seq<limb>, b: seq<limb>, i: nat)
    requires i < |a| == |b| && a[i + 1..] == b[i + 1..] && a[i] < b[i]
    ensures Val(a) < Val(b)
  {
    hide Val, B;
    ValSplit(a, i);
    ValSplit(b, i);
    ValBound(a[..i]);
    ValBound(b[..i]);
    LimbDecides(Val(a[..i]), Val(b[..i]), a[i], b[i], B(i));
  }

  lemma LimbDecides(va: int, vb: int, x: int, y: int, w: int)
    requires 0 <= va < w && 0 <= vb && x < y
    ensures va + x * w < vb + y * w
  {
    MulLe(x + 1, y, w);
    assert (x + 1) * w == x * w + w;
  }

  // ---------- shifting left ----------

  /** The limbs of a, each shifted left by s bits with the carry from below, P == 2^s and Q == 2^(32-s). */
  function UpLimb(a: seq<limb>, P: int, Q: int, j: nat): int
    requires j < |a| && P > 0 && Q > 0
  {
    (a[j] * P) % BASE + (if j > 0 then a[j - 1] / Q else 0)
  }

  lemma HighPart(x: limb, P: int, Q: int)
    requires P > 0 && Q > 0 && P * Q == BASE
    ensures x * P == (x * P) % BASE + (x / Q) * BASE
    ensures (x * P) % BASE == (x % Q) * P
    ensures 0 <= x / Q < P && 0 <= x % Q < Q
    ensures (x % Q) * P + P <= BASE
  {
    var q, r := x / Q, x % Q;
    SplitProduct(x, P, Q, q, r);
    DivModUnique(x * P, BASE, q, r * P);
  }

  lemma SplitProduct(x: int, P: int, Q: int, q: int, r: int)
    requires P > 0 && Q > 0 && P * Q == BASE && x == q * Q + r && 0 <= r < Q && 0 <= x < BASE
    ensures x * P == q * BASE + r * P && 0 <= r * P && r * P + P <= BASE && 0 <= q < P
  {
    ProductParts(P, Q, q, r);
    MulLe(r + 1, Q, P);
    if q < 0 { MulLe(q, -1, Q); }
    if q >= P { MulLe(P, q, Q); }
  }

  lemma ProductParts(P: int, Q: int, q: int, r: int)
    ensures (q * Q + r) * P == q * (P * Q) + r * P && (r + 1) * P == r * P + P
  {
  }

  /** Shifting the limbs multiplies the number, up to the part carried out. */
  lemma {:induction false} UpValue(a: seq<limb>, r: seq<limb>, P: int, Q: int, i: nat)
    requires P > 0 && Q > 0 && P * Q == BASE && i <= |r| <= |a|
    requires forall j :: 0 <= j < |r| ==> r[j] == UpLimb(a, P, Q, j)
    ensures Val(r[..i]) + Carried(a, Q, i) * B(i) == Val(a[..i]) * P
    decreases i
  {
    hide Val, B, UpLimb;
    if i == 0 {
      EmptyVal();
      assert r[..0] == [] && a[..0] == [];
    } else {
      UpValue(a, r, P, Q, i - 1);
      ValPrefix(a, i - 1);
      ValPrefix(r, i - 1);
      BNext(i - 1);
      UpParts(a, P, Q, i - 1);
      UpStep(Val(r[..i - 1]), Val(r[..i]), Val(a[..i - 1]), Val(a[..i]), Carried(a, Q, i - 1), a[i - 1],
        (a[i - 1] * P) % BASE, a[i - 1] / Q, P, B(i - 1), B(i));
    }
  }

  /** The bits that limb i receives from below. */
  function Carried(a: seq<limb>, Q: int, i: nat): int
    requires i <= |a| && Q > 0
  {
    if i > 0 then a[i - 1] / Q else 0
  }

  lemma UpParts(a: seq<limb>, P: int, Q: int, i: nat)
    requires i < |a| && P > 0 && Q > 0 && P * Q == BASE
    ensures UpLimb(a, P, Q, i) == (a[i] * P) % BASE + Carried(a, Q, i)
    ensures a[i] * P == (a[i] * P) % BASE + (a[i] / Q) * BASE
  {
    HighPart(a[i], P, Q);
  }

  lemma EmptyVal()
    ensures Val([]) == 0
  {
  }

  lemma UpStep(vr: int, vr': int, va: int, va': int, c: int, x: int, lo: int, hi: int, P: int, w: int, w': int)
    requires vr + c * w == va * P && x * P == lo + hi * BASE
    requires vr' == vr + (lo + c) * w && va' == va + x * w && w' == BASE * w
    ensures vr' + hi * w' == va' * P
  {
    assert (lo + c) * w == lo * w + c * w;
    assert hi * (BASE * w) == (hi * BASE) * w;
    assert (lo + hi * BASE) * w == lo * w + (hi * BASE) * w;
    assert (va + x * w) * P == va * P + (x * P) * w;
  }

  // ---------- shifting right ----------

  function DownLimb(a: seq<limb>, P: int, Q: int, j: nat): int
    requires j < |a| && P > 0 && Q > 0
  {
    a[j] / P + (if j + 1 < |a| then (a[j + 1] * Q) % BASE else 0)
  }

  /** The bits of limb i that a right shift moves down. */
  function Low(a: seq<limb>, P: int, i: nat): int
    requires P > 0
  {
    if i < |a| then a[i] % P else 0
  }

  lemma DownParts(a: seq<limb>, P: int, Q: int, j: nat)
    requires j < |a| && P > 0 && Q > 0 && P * Q == BASE
    ensures DownLimb(a, P, Q, j) == a[j] / P + Low(a, P, j + 1) * Q
    ensures a[j] == (a[j] / P) * P + Low(a, P, j)
  {
    if j + 1 < |a| { HighPart(a[j + 1], Q, P); }
  }

  /** Shifting the limbs right divides the number, up to the part shifted out. */
  lemma {:induction false} DownValue(a: seq<limb>, r: seq<limb>, P: int, Q: int, i: nat)
    requires P > 0 && Q > 0 && P * Q == BASE && i <= |r| == |a|
    requires forall j :: 0 <= j < |r| ==> r[j] == DownLimb(a, P, Q, j)
    ensures Val(r[..i]) * P + Low(a, P, 0) == Val(a[..i]) + Low(a, P, i) * B(i)
    decreases i
  {
    hide Val, B, Low, DownLimb;
    if i == 0 {
      EmptyVal();
      BZero();
      assert r[..0] == [] && a[..0] == [];
    } else {
      DownValue(a, r, P, Q, i - 1);
      ValPrefix(a, i - 1);
      ValPrefix(r, i - 1);
      BNext(i - 1);
      DownParts(a, P, Q, i - 1);
      var hi := a[i - 1] / P;
      assert r[i - 1] == hi + Low(a, P, i) * Q;
      DownStep(Val(r[..i - 1]), Val(r[..i]), Val(a[..i - 1]), Val(a[..i]), Low(a, P, 0), hi, Low(a, P, i - 1),
        Low(a, P, i), P, Q, B(i - 1), B(i));
    }
  }

  lemma BZero()
    ensures B(0) == 1
  {
  }

  lemma DownStep(
    vr: int, vr': int, va: int, va': int, out: int, hi: int, lo: int, y: int, P: int, Q: int, w: int, w': int)
    requires vr * P + out == va + lo * w && P * Q == BASE
    requires vr' == vr + (hi + y * Q) * w && va' == va + (hi * P + lo) * w && w' == BASE * w
    ensures vr' * P + out == va' + y * w'
  {
    assert (vr + (hi + y * Q) * w) * P == vr * P + (hi * P) * w + (y * (Q * P)) * w;
    assert (hi * P + lo) * w == (hi * P) * w + lo * w;
    assert y * (BASE * w) == (y * BASE) * w;
  }
}
