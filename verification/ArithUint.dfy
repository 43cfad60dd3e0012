/** Fixed-width unsigned integers, in place on an array of 32-bit limbs of any length. */
module ArithUint {
  import opened LimbMath

  /** One limb of a sum or product: what stays and what is carried. */
  lemma CarryStep(n: int, w: int)
    requires n >= 0 && w >= 0
    ensures 0 <= n % BASE < BASE && n / BASE >= 0
    ensures (n % BASE) * w + (n / BASE) * (BASE * w) == n * w
  {
    var q, r := n / BASE, n % BASE;
    assert n == q * BASE + r;
    assert q * (BASE * w) == (q * BASE) * w;
    assert (q * BASE + r) * w == (q * BASE) * w + r * w;
  }

  lemma AddStep(vp: int, va: int, vb: int, carry: int, x: int, y: int, n: int, w: int)
    requires vp + carry * w == va + vb && n == carry + x + y && n >= 0 && w >= 0
    ensures vp + (n % BASE) * w + (n / BASE) * (BASE * w) == va + x * w + (vb + y * w)
  {
    CarryStep(n, w);
    assert (carry + x + y) * w == carry * w + x * w + y * w;
  }

  /** Addition, modulo BASE to the width; b may be the same object. */
  method AddAssign(pn: array<limb>, b: array<limb>)
    requires b.Length == pn.Length
    modifies pn
    ensures Val(pn[..]) == (old(Val(pn[..])) + old(Val(b[..]))) % B(pn.Length)
  {
    ghost var a0, b0 := pn[..], b[..];
    var carry := 0;
    var i := 0;
    assert Val(pn[..0]) == Val(a0[..0]) == Val(b0[..0]) == 0 && B(0) == 1;
    hide Val, B;
    while i < pn.Length
      invariant 0 <= i <= pn.Length && 0 <= carry <= 1
      invariant forall j :: i <= j < pn.Length ==> pn[j] == a0[j] && b[j] == b0[j]
      invariant Val(pn[..i]) + carry * B(i) == Val(a0[..i]) + Val(b0[..i])
    {
      var n := carry + pn[i] + b[i];
      assert n < BASE * BASE;
      ghost var before, carry0 := pn[..i], carry;
      pn[i] := n % BASE;
      carry := n / BASE;
      assert pn[..i] == before;
      ValPrefix(a0, i);
      ValPrefix(b0, i);
      ValPrefix(pn[..], i);
      assert pn[..][..i] == pn[..i] && pn[..][..i + 1] == pn[..i + 1];
      AddStep(Val(before), Val(a0[..i]), Val(b0[..i]), carry0, a0[i], b0[i], n, B(i));
      BNext(i);
      i := i + 1;
    }
    assert pn[..i] == pn[..] && a0[..i] == a0 && b0[..i] == b0;
    ValBound(pn[..]);
    ModByMultiple(Val(pn[..]), Val(a0) + Val(b0), carry, B(pn.Length));
  }

  // ---------- negation and subtraction ----------

  /** The carry of an increment stops at the first limb that does not wrap. */
  method Increment(pn: array<limb>)
    requires pn.Length > 0
    modifies pn
    ensures Val(pn[..]) == (old(Val(pn[..])) + 1) % B(pn.Length)
  {
    assert B(0) == 1;
    hide Val, B;
    ghost var v := Val(pn[..]);
    var i := 0;
    BumpAt(pn, 0);
    while pn[i] == 0 && i < pn.Length - 1
      invariant 0 <= i < pn.Length
      invariant Val(pn[..]) + (if pn[i] == 0 then B(i + 1) else 0) == v + 1
    {
      i := i + 1;
      BumpAt(pn, i);
    }
    ValBound(pn[..]);
    ModByMultiple(Val(pn[..]), v + 1, if pn[i] == 0 then 1 else 0, B(pn.Length));
  }

  /** Adds one to limb i, wrapping. */
  method BumpAt(pn: array<limb>, i: nat)
    requires i < pn.Length
    modifies pn
    ensures pn[i] == (old(pn[i]) + 1) % BASE && forall j :: 0 <= j < pn.Length && j != i ==> pn[j] == old(pn[j])
    ensures Val(pn[..]) + (if pn[i] == 0 then B(i + 1) else 0) == old(Val(pn[..])) + B(i)
  {
    hide Val, B;
    ghost var before := pn[..];
    BumpLimb(before, i);
    var x: limb := (pn[i] + 1) % BASE;
    pn[i] := x;
    assert pn[..] == before[i := x];
  }

  lemma BumpLimb(s: seq<limb>, i: nat)
    requires i < |s|
    ensures
      var x := (s[i] + 1) % BASE;
      Val(s[i := x]) + (if x == 0 then B(i + 1) else 0) == Val(s) + B(i)
  {
    var x := (s[i] + 1) % BASE;
    ValUpdate(s, i, x);
    BNext(i);
    if s[i] == BASE - 1 {
      assert x == 0;
      hide Val, B;
      assert (0 - (BASE - 1)) * B(i) + BASE * B(i) == B(i);
    } else {
      assert x == s[i] + 1;
    }
  }

  /** The two's complement, in a new number. */
  method Negated(b: array<limb>) returns (ret: array<limb>)
    requires b.Length > 0
    ensures fresh(ret) && ret.Length == b.Length
    ensures Val(ret[..]) == (-Val(b[..])) % B(b.Length)
  {
    ret := new limb[b.Length];
    hide Val, B;
    var i := 0;
    while i < b.Length
      invariant 0 <= i <= b.Length
      invariant forall j :: 0 <= j < i ==> ret[j] == BASE - 1 - b[j]
    {
      ret[i] := BASE - 1 - b[i];
      i := i + 1;
    }
    Complement(b[..], ret[..]);
    Increment(ret);
    ValBound(b[..]);
    NegateMod(Val(b[..]), B(b.Length));
  }

  lemma NegateMod(v: int, m: int)
    requires 0 <= v < m
    ensures (m - 1 - v + 1) % m == (-v) % m
  {
    if v == 0 {
      DivModUnique(m - 1 - v + 1, m, 1, 0);
      DivModUnique(-v, m, 0, 0);
    } else {
      DivModUnique(m - 1 - v + 1, m, 0, m - v);
      DivModUnique(-v, m, -1, m - v);
    }
  }

  lemma {:induction false} Complement(s: seq<limb>, r: seq<limb>)
    requires |r| == |s| && forall j :: 0 <= j < |s| ==> r[j] == BASE - 1 - s[j]
    ensures Val(r) == B(|s|) - 1 - Val(s)
    decreases |s|
  {
    if s != [] {
      var n := |s| - 1;
      Complement(s[..n], r[..n]);
      BNext(n);
      assert Val(s) == Val(s[..n]) + s[n] * B(n) && Val(r) == Val(r[..n]) + r[n] * B(n);
      hide Val, B;
      assert (BASE - 1 - s[n]) * B(n) == BASE * B(n) - B(n) - s[n] * B(n);
    }
  }

  method SubAssign(pn: array<limb>, b: array<limb>)
    requires b.Length == pn.Length > 0
    modifies pn
    ensures Val(pn[..]) == (old(Val(pn[..])) - old(Val(b[..]))) % B(pn.Length)
    ensures old(Val(pn[..])) >= old(Val(b[..])) ==> Val(pn[..]) == old(Val(pn[..])) - old(Val(b[..]))
  {
    hide Val, B;
    ghost var x, y := Val(pn[..]), Val(b[..]);
    ValBound(pn[..]);
    ValBound(b[..]);
    var neg := Negated(b);
    AddAssign(pn, neg);
    SubMod(x, y, B(pn.Length));
  }

  lemma SubMod(x: int, y: int, m: int)
    requires m > 0 && 0 <= x < m && 0 <= y < m
    ensures (x + (-y) % m) % m == (x - y) % m
    ensures x >= y ==> (x - y) % m == x - y
  {
    if y == 0 {
      DivModUnique(-y, m, 0, 0);
    } else {
      DivModUnique(-y, m, -1, m - y);
      if x >= y {
        DivModUnique(x + (m - y), m, 1, x - y);
        DivModUnique(x - y, m, 0, x - y);
      } else {
        DivModUnique(x + (m - y), m, 0, x + m - y);
        DivModUnique(x - y, m, -1, x - y + m);
      }
    }
    if x >= y { DivModUnique(x - y, m, 0, x - y); }
  }

  // ---------- multiplication ----------

  lemma ScaleStep(vp: int, va: int, carry: int, k: int, x: int, n: int, w: int)
    requires vp + carry * w == k * va && n == carry + k * x && n >= 0 && w >= 0
    ensures vp + (n % BASE) * w + (n / BASE) * (BASE * w) == k * (va + x * w)
  {
    CarryStep(n, w);
    assert (carry + k * x) * w == carry * w + (k * x) * w;
    assert k * (va + x * w) == k * va + (k * x) * w;
  }

  /** No step of a multiplication exceeds 64 bits. */
  lemma ProductFits(carry: limb, prev: limb, x: limb, y: limb)
    ensures 0 <= carry + prev + x * y < BASE * BASE
    ensures (carry + prev + x * y) / BASE < BASE
  {
    assert x * y <= (BASE - 1) * (BASE - 1) by { MulLe(x, BASE - 1, y); MulLe(y, BASE - 1, BASE - 1); }
    assert 0 <= x * y;
    var n := carry + prev + x * y;
    assert n == (n / BASE) * BASE + n % BASE;
  }

  /** Multiplication by one limb. */
  method MulSmall(pn: array<limb>, b32: limb)
    modifies pn
    ensures Val(pn[..]) == (b32 * old(Val(pn[..]))) % B(pn.Length)
  {
    ghost var a0 := pn[..];
    assert Val(pn[..0]) == Val(a0[..0]) == 0 && B(0) == 1;
    hide Val, B;
    var carry: limb := 0;
    var i := 0;
    while i < pn.Length
      invariant 0 <= i <= pn.Length
      invariant forall j :: i <= j < pn.Length ==> pn[j] == a0[j]
      invariant Val(pn[..i]) + carry * B(i) == b32 * Val(a0[..i])
    {
      ProductFits(carry, 0, b32, pn[i]);
      var n := carry + b32 * pn[i];
      ghost var before, carry0 := pn[..i], carry;
      pn[i] := n % BASE;
      carry := n / BASE;
      assert pn[..i] == before;
      ValPrefix(a0, i);
      ValPrefix(pn[..], i);
      assert pn[..][..i] == pn[..i] && pn[..][..i + 1] == pn[..i + 1];
      ScaleStep(Val(before), Val(a0[..i]), carry0, b32, a0[i], n, B(i));
      BNext(i);
      i := i + 1;
    }
    assert pn[..i] == pn[..] && a0[..i] == a0;
    ValBound(pn[..]);
    ModByMultiple(Val(pn[..]), b32 * Val(a0), carry, B(pn.Length));
  }

  /** One row of the schoolbook product: adds x times b, j limbs up; k counts what goes beyond. */
  method AddRow(pn: array<limb>, b: array<limb>, x: limb, j: nat) returns (ghost k: int)
    requires b.Length == pn.Length && b != pn && j < pn.Length
    modifies pn
    ensures Val(pn[..]) + k * B(pn.Length) == old(Val(pn[..])) + x * Val(b[..]) * B(j)
  {
    ghost var p0, b0 := pn[..], b[..];
    assert Val(b0[..0]) == 0;
    hide Val, B, RowDone;
    var carry: limb := 0;
    var i := 0;
    RowStart(Val(p0), x, B(j));
    while i + j < pn.Length
      invariant 0 <= i && i + j <= pn.Length && b[..] == b0
      invariant RowDone(Val(pn[..]), carry, B(i + j), Val(p0), x, Val(b0[..i]), B(j))
    {
      ProductFits(carry, pn[i + j], x, b[i]);
      var n := carry + pn[i + j] + x * b[i];
      ghost var before, carry0 := pn[..], carry;
      var low: limb := n % BASE;
      pn[i + j] := low;
      carry := n / BASE;
      assert pn[..] == before[i + j := low];
      RowLimb(before, Val(p0), b0, i, j, carry0, x, n);
      i := i + 1;
    }
    RowTail(b0, i, j, x);
    k := carry + x * Val(b0[i..]);
    RowEnd(Val(pn[..]), carry, B(pn.Length), Val(p0), x, Val(b0[..i]), Val(b0), Val(b0[i..]), B(j));
  }

  lemma RowLimb(p: seq<limb>, p0: int, b: seq<limb>, i: nat, j: nat, carry: int, x: int, n: int)
    requires i + j < |p| && i < |b| && n == carry + p[i + j] + x * b[i] && n >= 0
    requires RowDone(Val(p), carry, B(i + j), p0, x, Val(b[..i]), B(j))
    ensures RowDone(Val(p[i + j := n % BASE]), n / BASE, B(i + j + 1), p0, x, Val(b[..i + 1]), B(j))
  {
    hide Val, B, RowDone;
    ValUpdate(p, i + j, n % BASE);
    ValPrefix(b, i);
    BNext(i + j);
    BSum(i, j);
    RowStep(Val(p), p0, Val(b[..i]), carry, x, b[i], p[i + j], n, B(i), B(j));
  }

  ghost predicate RowDone(v: int, carry: int, w: int, p0: int, x: int, vb: int, wj: int) {
    v + carry * w == p0 + x * vb * wj
  }

  lemma RowStart(p0: int, x: int, w: int)
    ensures RowDone(p0, 0, w, p0, x, 0, w)
  {
  }

  lemma RowEnd(v: int, carry: int, m: int, p0: int, x: int, vi: int, vb: int, vt: int, w: int)
    requires RowDone(v, carry, m, p0, x, vi, w) && x * vb * w == x * vi * w + (x * vt) * m
    ensures v + (carry + x * vt) * m == p0 + x * vb * w
  {
    assert (carry + x * vt) * m == carry * m + (x * vt) * m;
  }

  lemma RowStep(vp: int, p0: int, vb: int, carry: int, x: int, y: int, prev: int, n: int, wi: int, wj: int)
    requires RowDone(vp, carry, wi * wj, p0, x, vb, wj) && n == carry + prev + x * y && n >= 0 && wi >= 0 && wj >= 0
    ensures RowDone(vp + (n % BASE - prev) * (wi * wj), n / BASE, BASE * (wi * wj), p0, x, vb + y * wi, wj)
  {
    var w := wi * wj;
    CarryStep(n, w);
    assert (n % BASE - prev) * w == (n % BASE) * w - prev * w;
    assert (carry + prev + x * y) * w == carry * w + prev * w + (x * y) * w;
    SplitFactor(x, vb, y, wi, wj);
  }

  lemma SplitFactor(x: int, v: int, y: int, p: int, q: int)
    ensures x * (v + y * p) * q == x * v * q + (x * y) * (p * q)
  {
    assert x * (v + y * p) == x * v + x * (y * p);
    assert (x * v + x * (y * p)) * q == x * v * q + x * (y * p) * q;
    assert x * (y * p) * q == (x * y) * (p * q);
  }

  /** The limbs of b that do not fit contribute a multiple of the modulus. */
  lemma RowTail(b: seq<limb>, i: nat, j: nat, x: int)
    requires i + j == |b|
    ensures x * Val(b) * B(j) == x * Val(b[..i]) * B(j) + (x * Val(b[i..])) * B(|b|)
  {
    hide Val, B;
    assert b == b[..i] + b[i..];
    ValConcat(b[..i], b[i..]);
    BSum(i, j);
    SplitFactor(x, Val(b[..i]), Val(b[i..]), B(i), B(j));
    assert B(i) * Val(b[i..]) == Val(b[i..]) * B(i);
  }

  /** Multiplication.  It is the product modulo BASE to the width, provided the factor is another
      object: a number multiplied by itself in place is cleared first, and stays zero. */
  method MulAssign(pn: array<limb>, b: array<limb>)
    requires b.Length == pn.Length
    modifies pn
    ensures b != pn ==> Val(pn[..]) == (old(Val(pn[..])) * Val(b[..])) % B(pn.Length)
    ensures b == pn ==> Val(pn[..]) == 0
  {
    ghost var b0 := b[..];
    var a := pn[..];
    Clear(pn);
    var j := 0;
    ghost var k := 0;
    assert Val(a[..0]) == 0;
    hide Val, B;
    while j < pn.Length
      invariant 0 <= j <= pn.Length
      invariant b == pn ==> forall i :: 0 <= i < pn.Length ==> pn[i] == 0
      invariant b != pn ==> b[..] == b0 && Val(pn[..]) + k * B(pn.Length) == Val(a[..j]) * Val(b0)
    {
      if b != pn {
        ghost var before, k0 := Val(pn[..]), k;
        ghost var k1 := AddRow(pn, b, a[j], j);
        k := k0 + k1;
        ValPrefix(a, j);
        RowsAdd(Val(pn[..]), before, Val(a[..j]), Val(b0), a[j], B(j), k0, k1, B(pn.Length));
      } else {
        AddZeroRow(pn, a[j], j);
      }
      j := j + 1;
    }
    assert a[..j] == a;
    ValBound(pn[..]);
    if b != pn {
      ModByMultiple(Val(pn[..]), Val(a) * Val(b0), k, B(pn.Length));
    } else {
      AllZero(pn[..]);
    }
  }

  lemma RowsAdd(v: int, before: int, va: int, vb: int, x: int, w: int, k0: int, k1: int, m: int)
    requires before + k0 * m == va * vb && v + k1 * m == before + x * vb * w
    ensures v + (k0 + k1) * m == (va + x * w) * vb
  {
    assert (k0 + k1) * m == k0 * m + k1 * m;
    assert (va + x * w) * vb == va * vb + x * vb * w;
  }

  /** A row of the product when the factor is the cleared number itself. */
  method AddZeroRow(pn: array<limb>, x: limb, j: nat)
    requires forall i :: 0 <= i < pn.Length ==> pn[i] == 0
    modifies pn
    ensures forall i :: 0 <= i < pn.Length ==> pn[i] == 0
  {
    var carry: limb := 0;
    var i := 0;
    while i + j < pn.Length
      invariant 0 <= i && carry == 0
      invariant forall l :: 0 <= l < pn.Length ==> pn[l] == 0
    {
      var n := carry + pn[i + j] + x * pn[i];
      assert n == 0;
      pn[i + j] := n % BASE;
      carry := n / BASE;
      i := i + 1;
    }
  }

  method Clear(pn: array<limb>)
    modifies pn
    ensures forall i :: 0 <= i < pn.Length ==> pn[i] == 0
    ensures Val(pn[..]) == 0
  {
    var i := 0;
    while i < pn.Length
      invariant 0 <= i <= pn.Length
      invariant forall l :: 0 <= l < i ==> pn[l] == 0
    {
      pn[i] := 0;
      i := i + 1;
    }
    AllZero(pn[..]);
  }

  lemma {:induction false} AllZero(s: seq<limb>)
    requires forall i :: 0 <= i < |s| ==> s[i] == 0
    ensures Val(s) == 0
    decreases |s|
  {
    if s != [] { AllZero(s[..|s| - 1]); }
  }

  // ---------- shifts ----------

  lemma ShiftFactors(s: nat)
    requires s < 32
    ensures Pow2(s) * Pow2(32 - s) == BASE
  {
    hide Pow2;
    Pow2Sum(s, 32 - s);
    Pow2Of32();
  }

  /** What a left shift by 32 * k + s bits has stored in limb l once i limbs are done. */
  ghost function UpSoFar(a: seq<limb>, P: int, Q: int, k: nat, i: nat, l: nat): int
    requires i <= |a| && P > 0 && Q > 0 && l < |a|
  {
    if l < k || l > i + k then 0
    else if l == i + k then (if i > 0 then a[i - 1] / Q else 0)
    else UpLimb(a, P, Q, l - k)
  }

  /** The two parts of a shifted limb do not overlap. */
  lemma OrUp(a: seq<limb>, s: nat, i: nat, low: nat, high: nat)
    requires i < |a| && s < 32
    requires low == (if i > 0 then a[i - 1] / Pow2(32 - s) else 0) && high == (a[i] * Pow2(s)) % BASE
    ensures Or(low, high) == UpLimb(a, Pow2(s), Pow2(32 - s), i) < BASE
  {
    hide Pow2, Or;
    var P, Q := Pow2(s), Pow2(32 - s);
    ShiftFactors(s);
    HighPart(a[i], P, Q);
    if i > 0 { HighPart(a[i - 1], P, Q); }
    OrDisjoint(a[i] % Q, low, s);
  }

  /** Left shift: multiplication by a power of two, modulo BASE to the width. */
  method ShiftLeft(pn: array<limb>, shift: nat)
    modifies pn
    ensures Val(pn[..]) == (old(Val(pn[..])) * Pow2(shift)) % B(pn.Length)
  {
    hide Val, B, Pow2, Or, UpLimb;
    var a, k, s := pn[..], shift / 32, shift % 32;
    var P, Q := Pow2(s), Pow2(32 - s);
    Clear(pn);
    var i := 0;
    while i < pn.Length
      invariant 0 <= i <= pn.Length
      invariant forall l :: 0 <= l < pn.Length ==> pn[l] == UpSoFar(a, P, Q, k, i, l)
    {
      ShiftFactors(s);
      HighPart(a[i], P, Q);
      if i > 0 { HighPart(a[i - 1], P, Q); }
      OrUp(a, s, i, if i > 0 then a[i - 1] / Q else 0, (a[i] * P) % BASE);
      OrZero(a[i] / Q);
      if i + k + 1 < pn.Length && s != 0 {
        pn[i + k + 1] := Or(pn[i + k + 1], a[i] / Q);
      }
      WholeShift(a[i], s);
      if i + k < pn.Length {
        pn[i + k] := Or(pn[i + k], (a[i] * P) % BASE);
      }
      i := i + 1;
    }
    UpShifted(a, pn[..], k, s);
  }

  lemma WholeShift(x: limb, s: nat)
    ensures s == 0 ==> x / Pow2(32) == 0
  {
    hide Pow2;
    Pow2Of32();
    var y: int := x;
    DivModUnique(y, BASE, 0, y);
  }

  lemma ScaleOut(v: int, lo: int, hi: int, c: int, wk: int, P: int, wd: int)
    requires v + c * wd == lo * P
    ensures wk * v + (c + hi * P) * (wd * wk) == (lo + wd * hi) * (wk * P)
  {
    assert (lo + wd * hi) * (wk * P) == wk * (lo * P) + (hi * P) * (wd * wk);
    assert wk * (v + c * wd) == wk * v + c * (wd * wk);
    assert (c + hi * P) * (wd * wk) == c * (wd * wk) + (hi * P) * (wd * wk);
  }

  lemma ShiftPower(k: nat, s: nat)
    ensures Pow2(32 * k + s) == B(k) * Pow2(s)
  {
    hide Pow2, B;
    BIsPow2(k);
    Pow2Sum(32 * k, s);
  }

  lemma UpShifted(a: seq<limb>, r: seq<limb>, k: nat, s: nat)
    requires |r| == |a| && s < 32
    requires forall l :: 0 <= l < |r| ==> r[l] == UpSoFar(a, Pow2(s), Pow2(32 - s), k, |a|, l)
    ensures Val(r) == (Val(a) * Pow2(32 * k + s)) % B(|a|)
  {
    hide Val, B, Pow2, UpLimb;
    var P, Q := Pow2(s), Pow2(32 - s);
    ShiftPower(k, s);
    ShiftFactors(s);
    ValBound(r);
    if k >= |a| {
      AllZero(r);
      BSum(|a|, k - |a|);
      var v, w, t := Val(a), B(|a|), B(k - |a|);
      assert v * (w * t * P) == (v * t * P) * w;
      DivModUnique(v * (w * t * P), w, v * t * P, 0);
    } else {
      var d := |a| - k;
      assert forall j :: 0 <= j < d ==> r[k + j] == UpLimb(a, P, Q, j);
      UpValue(a, r[k..], P, Q, d);
      assert r[k..][..d] == r[k..] && r == r[..k] + r[k..] && a == a[..d] + a[d..];
      AllZero(r[..k]);
      ValConcat(r[..k], r[k..]);
      ValConcat(a[..d], a[d..]);
      BSum(d, k);
      var c := a[d - 1] / Q;
      ScaleOut(Val(r[k..]), Val(a[..d]), Val(a[d..]), c, B(k), P, B(d));
      ModByMultiple(Val(r), Val(a) * (B(k) * P), c + Val(a[d..]) * P, B(|a|));
    }
  }

  /** What a right shift by 32 * k + s bits has stored in limb l once i limbs are done. */
  ghost function DownSoFar(a: seq<limb>, P: int, Q: int, k: nat, i: nat, l: nat): int
    requires i <= |a| && P > 0 && Q > 0
  {
    if l + k >= i then 0
    else if l + k + 1 == i then a[l + k] / P
    else a[l + k] / P + (a[l + k + 1] * Q) % BASE
  }

  lemma OrDown(a: seq<limb>, s: nat, i: nat, low: nat, high: nat)
    requires i + 1 < |a| && s < 32
    requires low == a[i] / Pow2(s) && high == (a[i + 1] * Pow2(32 - s)) % BASE
    ensures Or(low, high) == low + high < BASE
  {
    hide Pow2, Or;
    var P, Q := Pow2(s), Pow2(32 - s);
    ShiftFactors(s);
    HighPart(a[i], Q, P);
    HighPart(a[i + 1], Q, P);
    OrDisjoint(a[i + 1] % P, low, 32 - s);
  }

  /** Right shift: division by a power of two. */
  method ShiftRight(pn: array<limb>, shift: nat)
    modifies pn
    ensures Val(pn[..]) == old(Val(pn[..])) / Pow2(shift)
  {
    hide Val, B, Pow2, Or;
    var a, k, s := pn[..], shift / 32, shift % 32;
    var P, Q := Pow2(s), Pow2(32 - s);
    Clear(pn);
    var i := 0;
    while i < pn.Length
      invariant 0 <= i <= pn.Length
      invariant forall l :: 0 <= l < pn.Length ==> pn[l] == DownSoFar(a, P, Q, k, i, l)
    {
      ShiftFactors(s);
      HighPart(a[i], Q, P);
      if i - k - 1 >= 0 {
        HighPart(a[i - 1], Q, P);
        OrDown(a, s, i - 1, a[i - 1] / P, (a[i] * Q) % BASE);
        NoneUp(a[i], s);
        if s != 0 {
          pn[i - k - 1] := Or(pn[i - k - 1], (a[i] * Q) % BASE);
        }
      }
      if i - k >= 0 {
        OrZero(a[i] / P);
        pn[i - k] := Or(pn[i - k], a[i] / P);
      }
      i := i + 1;
    }
    DownShifted(a, pn[..], k, s);
  }

  lemma NoneUp(x: limb, s: nat)
    ensures s == 0 ==> (x * Pow2(32)) % BASE == 0
  {
    hide Pow2;
    Pow2Of32();
    var y: int := x;
    DivModUnique(y * BASE, BASE, y, 0);
  }

  lemma DownShifted(a: seq<limb>, r: seq<limb>, k: nat, s: nat)
    requires |r| == |a| && s < 32
    requires forall l :: 0 <= l < |r| ==> r[l] == DownSoFar(a, Pow2(s), Pow2(32 - s), k, |a|, l)
    ensures Val(r) == Val(a) / Pow2(32 * k + s)
  {
    hide Val, B, Pow2;
    var P, Q := Pow2(s), Pow2(32 - s);
    ShiftPower(k, s);
    ShiftFactors(s);
    if k >= |a| {
      AllZero(r);
      ValBound(a);
      BSum(|a|, k - |a|);
      Outgrown(Val(a), B(|a|), B(k - |a|), P);
    } else {
      var d, t := |a| - k, a[k..];
      assert forall j :: 0 <= j < d ==> r[j] == DownLimb(t, P, Q, j);
      DownValue(t, r[..d], P, Q, d);
      assert r[..d][..d] == r[..d] && t[..d] == t;
      assert r == r[..d] + r[d..] && a == a[..k] + t;
      AllZero(r[d..]);
      ValConcat(r[..d], r[d..]);
      ValConcat(a[..k], t);
      ValBound(a[..k]);
      ShiftedOut(Val(a), Val(a[..k]), Val(r), t[0] % P, B(k), P);
    }
  }

  lemma Outgrown(v: int, w: int, t: int, P: int)
    requires 0 <= v < w && t >= 1 && P >= 1
    ensures v / (w * t * P) == 0
  {
    assert w * t * P >= w by { MulLe(1, t * P, w); assert w * t * P == (t * P) * w; }
    DivModUnique(v, w * t * P, 0, v);
  }

  lemma RemainderFits(out: int, w: int, P: int)
    requires 0 <= out < P && 0 <= w
    ensures 0 <= w * out && w * out + w <= w * P
  {
    MulLe(out + 1, P, w);
    assert (out + 1) * w == w * out + w;
  }

  lemma ShiftedOut(v: int, lo: int, r: int, out: int, w: int, P: int)
    requires 0 <= lo < w && 0 <= out < P && v == lo + w * (r * P + out)
    ensures v / (w * P) == r
  {
    assert w * (r * P + out) == r * (w * P) + w * out;
    RemainderFits(out, w, P);
    DivModUnique(v, w * P, r, w * out + lo);
  }

  // ---------- comparison and size ----------

  /** The sign of the difference. */
  method CompareTo(pn: array<limb>, b: array<limb>) returns (c: int)
    requires b.Length == pn.Length
    ensures c == if Val(pn[..]) < Val(b[..]) then -1 else if Val(pn[..]) > Val(b[..]) then 1 else 0
  {
    hide Val;
    var i := pn.Length - 1;
    while i >= 0
      invariant -1 <= i < pn.Length
      invariant forall l :: i < l < pn.Length ==> pn[l] == b[l]
    {
      if pn[i] < b[i] {
        FirstDifference(pn[..], b[..], i);
        return -1;
      }
      if pn[i] > b[i] {
        FirstDifference(b[..], pn[..], i);
        return 1;
      }
      i := i - 1;
    }
    assert pn[..] == b[..];
    return 0;
  }

  lemma FirstDifference(a: seq<limb>, b: seq<limb>, i: nat)
    requires i < |a| == |b| && a[i] < b[i] && forall l :: i < l < |a| ==> a[l] == b[l]
    ensures Val(a) < Val(b)
  {
    hide Val;
    assert a[i + 1..] == b[i + 1..];
    HighestDecides(a, b, i);
  }

  /** The position of the highest bit set plus one, or zero for zero. */
  method Bits(pn: array<limb>) returns (n: nat)
    ensures BitLength(Val(pn[..]), n)
  {
    hide Val, Pow2, BitLength;
    var pos := pn.Length - 1;
    while pos >= 0
      invariant -1 <= pos < pn.Length
      invariant forall l :: pos < l < pn.Length ==> pn[l] == 0
    {
      if pn[pos] != 0 {
        var bits := 31;
        Pow2Of32();
        while bits > 0
          invariant 0 <= bits <= 31 && pn[pos] < Pow2(bits + 1)
        {
          TopBit(pn[pos], bits);
          if (pn[pos] / Pow2(bits)) % 2 == 1 {
            TopLimb(pn[..], pos, bits);
            return 32 * pos + bits + 1;
          }
          bits := bits - 1;
        }
        Pow2Zero();
        TopLimb(pn[..], pos, 0);
        return 32 * pos + 1;
      }
      pos := pos - 1;
    }
    AllZero(pn[..]);
    NoBits();
    return 0;
  }

  lemma NoBits()
    ensures BitLength(0, 0)
  {
  }

  lemma TopBit(x: int, n: nat)
    requires 0 <= x < Pow2(n + 1)
    ensures (x / Pow2(n)) % 2 == 1 <==> Pow2(n) <= x
  {
    hide Pow2;
    var p := Pow2(n);
    Pow2Double(n);
    if x < p { DivModUnique(x, p, 0, x); } else { DivModUnique(x, p, 1, x - p); }
  }

  lemma TopLimb(s: seq<limb>, pos: nat, bits: nat)
    requires pos < |s| && forall l :: pos < l < |s| ==> s[l] == 0
    requires Pow2(bits) <= s[pos] < Pow2(bits + 1)
    ensures BitLength(Val(s), 32 * pos + bits + 1)
  {
    hide Val, B, Pow2;
    ValSplit(s, pos);
    AllZero(s[pos + 1..]);
    ValBound(s[..pos]);
    ShiftPower(pos, bits);
    ShiftPower(pos, bits + 1);
    MulLe(Pow2(bits), s[pos], B(pos));
    var x: int := s[pos];
    MulLe(x + 1, Pow2(bits + 1), B(pos));
    assert (x + 1) * B(pos) == x * B(pos) + B(pos);
  }

  // ---------- division ----------

  /** All bits of the number below position n are clear. */
  ghost predicate ClearBelow(s: seq<limb>, n: nat) {
    forall l :: 0 <= l < |s| && 32 * l < n ==> s[l] % Pow2(if n - 32 * l < 32 then n - 32 * l else 32) == 0
  }

  /** Setting the bit below the clear ones' end adds its weight. */
  lemma SetBit(s: seq<limb>, n: nat)
    requires n < 32 * |s| && ClearBelow(s, n + 1)
    ensures
      var l, t := n / 32, n % 32;
      var x := Or(s[l], Pow2(t));
      0 <= x < BASE && Val(s[l := x]) == Val(s) + Pow2(n) && ClearBelow(s[l := x], n)
  {
    hide Val, B, Pow2, Or;
    var l, t := n / 32, n % 32;
    assert n + 1 - 32 * l == t + 1;
    var P, R := Pow2(t + 1), Pow2(32 - (t + 1));
    Pow2Sum(t + 1, 32 - (t + 1));
    Pow2Of32();
    var h := s[l] / P;
    assert s[l] == h * P;
    Pow2Double(t);
    OrDisjoint(h, Pow2(t), t + 1);
    BitFits(h, Pow2(t), R);
    var x: limb := Or(s[l], Pow2(t));
    ValUpdate(s, l, x);
    ShiftPower(l, t);
    assert (x - s[l]) * B(l) == B(l) * Pow2(t);
    forall i | 0 <= i < |s| && 32 * i < n
      ensures s[l := x][i] % Pow2(if n - 32 * i < 32 then n - 32 * i else 32) == 0
    {
      if i == l { assert x % Pow2(t) == 0; } else { assert n + 1 - 32 * i > 32; }
    }
  }

  lemma BitFits(h: int, p: int, R: int)
    requires 0 <= h && p >= 1 && R >= 1 && (2 * p) * R == BASE && h * (2 * p) < BASE
    ensures h * (2 * p) + p < BASE && (h * (2 * p) + p) % p == 0
  {
    assert h >= R ==> h * (2 * p) >= R * (2 * p);
    MulLe(h + 1, R, 2 * p);
    assert (h + 1) * (2 * p) == h * (2 * p) + 2 * p;
    assert h * (2 * p) + p == (2 * h + 1) * p;
    DivModUnique((2 * h + 1) * p, p, 2 * h + 1, 0);
  }

  method Copy(b: array<limb>) returns (c: array<limb>)
    ensures fresh(c) && c.Length == b.Length && c[..] == b[..]
  {
    c := new limb[b.Length];
    var i := 0;
    while i < b.Length
      invariant 0 <= i <= b.Length && c[..i] == b[..i]
    {
      c[i] := b[i];
      i := i + 1;
    }
    assert c[..i] == c[..] && b[..i] == b[..];
  }

  /** Where the long division stands: shift + 1 bits of the quotient are still to be found. */
  ghost predicate Dividing(a: int, b: int, q: int, num: int, div: int, shift: int)
    requires shift >= -1
  {
    a == q * b + num && 0 <= num < b * Pow2(shift + 1) && (shift >= 0 ==> div == b * Pow2(shift))
  }

  lemma Align(a: int, b: int, na: nat, nb: nat, w: nat)
    requires BitLength(a, na) && BitLength(b, nb) && 0 < nb <= na && a < B(w)
    ensures 0 <= b * Pow2(na - nb) < B(w) && na <= 32 * w
    ensures Dividing(a, b, 0, a, b * Pow2(na - nb), na - nb)
  {
    hide B, Pow2;
    BIsPow2(w);
    if na > 32 * w { Pow2Mono(32 * w, na - 1); }
    Pow2Mono(na, 32 * w);
    Pow2Sum(nb, na - nb);
    Pow2Sum(nb - 1, na - nb + 1);
    AlignBounds(b, Pow2(nb - 1), Pow2(nb), Pow2(na - nb), Pow2(na - nb + 1));
  }

  lemma AlignBounds(b: int, lo: int, hi: int, p: int, r: int)
    requires 0 <= lo <= b < hi && p >= 1 && r >= 1
    ensures 0 <= b * p < hi * p && lo * r <= b * r
  {
    MulLe(lo, b, r);
    MulLe(b + 1, hi, p);
    assert (b + 1) * p == b * p + p;
  }

  lemma DivideStep(a: int, b: int, q: int, num: int, div: int, shift: nat)
    requires b > 0 && Dividing(a, b, q, num, div, shift)
    ensures num >= div ==> Dividing(a, b, q + Pow2(shift), num - div, div / 2, shift - 1)
    ensures num < div ==> Dividing(a, b, q, num, div / 2, shift - 1)
  {
    hide Pow2;
    var p := Pow2(shift);
    Pow2Double(shift);
    assert b * (2 * p) == 2 * (b * p);
    assert (q + p) * b == q * b + b * p;
    if shift > 0 {
      Pow2Double(shift - 1);
      var h := Pow2(shift - 1);
      assert b * (2 * h) == 2 * (b * h);
    }
  }

  /** Division.  The quotient is exact; dividing by zero is refused, with the number already cleared. */
  method DivAssign(pn: array<limb>, b: array<limb>) returns (ok: bool)
    requires b.Length == pn.Length
    modifies pn
    ensures ok <==> old(Val(b[..])) != 0
    ensures ok ==> Val(pn[..]) == old(Val(pn[..])) / old(Val(b[..]))
    ensures !ok ==> Val(pn[..]) == 0
  {
    hide Val, B, Pow2, Or, BitLength, ClearBelow, Dividing;
    ghost var av, bv, w := Val(pn[..]), Val(b[..]), pn.Length;
    ValBound(pn[..]);
    ValBound(b[..]);
    var div := Copy(b);
    var num := Copy(pn);
    Clear(pn);
    var numBits := Bits(num);
    var divBits := Bits(div);
    SizesDecide(av, bv, numBits, divBits);
    if divBits == 0 {
      return false;
    }
    if divBits > numBits {
      return true;
    }
    var shift := numBits - divBits;
    Align(av, bv, numBits, divBits, w);
    ShiftLeft(div, shift);
    InRange(bv * Pow2(shift), B(w));
    ZeroIsClear(pn[..], shift + 1);
    while shift >= 0
      invariant -1 <= shift < 32 * w
      invariant Dividing(av, bv, Val(pn[..]), Val(num[..]), Val(div[..]), shift)
      invariant ClearBelow(pn[..], shift + 1)
    {
      DivideStep(av, bv, Val(pn[..]), Val(num[..]), Val(div[..]), shift);
      var c := CompareTo(num, div);
      ghost var q := pn[..];
      ClearLess(q, shift);
      if c >= 0 {
        SubAssign(num, div);
        SetBit(q, shift);
        var x: limb := Or(pn[shift / 32], Pow2(shift % 32));
        pn[shift / 32] := x;
        assert pn[..] == q[shift / 32 := x];
      }
      Pow2One();
      ShiftRight(div, 1);
      shift := shift - 1;
    }
    Divided(av, bv, Val(pn[..]), Val(num[..]), Val(div[..]));
    return true;
  }

  lemma Pow2One()
    ensures Pow2(1) == 2
  {
  }

  lemma InRange(v: int, m: int)
    requires 0 <= v < m
    ensures v % m == v
  {
  }

  lemma SizesDecide(a: int, b: int, na: nat, nb: nat)
    requires BitLength(a, na) && BitLength(b, nb)
    ensures nb == 0 <==> b == 0
    ensures nb > na ==> a / b == 0
  {
    if nb > na {
      if na > 0 { Pow2Mono(na, nb - 1); }
      DivModUnique(a, b, 0, a);
    }
  }

  lemma ZeroIsClear(s: seq<limb>, n: nat)
    requires forall l :: 0 <= l < |s| ==> s[l] == 0
    ensures ClearBelow(s, n)
  {
    hide Pow2;
    forall l | 0 <= l < |s| && 32 * l < n
      ensures s[l] % Pow2(if n - 32 * l < 32 then n - 32 * l else 32) == 0
    {
      DivModUnique(0, Pow2(if n - 32 * l < 32 then n - 32 * l else 32), 0, 0);
    }
  }

  lemma ClearLess(s: seq<limb>, n: nat)
    requires ClearBelow(s, n + 1)
    ensures ClearBelow(s, n)
  {
    hide Pow2;
    forall l | 0 <= l < |s| && 32 * l < n
      ensures s[l] % Pow2(if n - 32 * l < 32 then n - 32 * l else 32) == 0
    {
      var t := n - 32 * l;
      if t < 32 {
        Pow2Double(t);
        Halve(s[l], Pow2(t));
      }
    }
  }

  lemma Halve(x: int, p: int)
    requires p >= 1 && x % (2 * p) == 0
    ensures x % p == 0
  {
    var h := x / (2 * p);
    assert x == h * (2 * p) == (2 * h) * p;
    DivModUnique(x, p, 2 * h, 0);
  }

  lemma Divided(a: int, b: int, q: int, num: int, div: int)
    requires b > 0 && Dividing(a, b, q, num, div, -1)
    ensures q == a / b
  {
    DivModUnique(a, b, q, num);
  }
}
