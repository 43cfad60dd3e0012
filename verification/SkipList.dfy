/** The heights that skip pointers lead to, and how many steps a walk along them takes. */
module SkipList {
  import opened LimbMath

  /** Bitwise and. */
  function And(x: nat, y: nat): (r: nat)
    ensures r <= x && r <= y
  {
    if x == 0 then 0
    else 2 * And(x / 2, y / 2) + (if x % 2 == 1 && y % 2 == 1 then 1 else 0)
  }

  /** Clears the lowest bit that is set. */
  function InvertLowestOne(n: nat): (r: nat)
    ensures r <= n && (n > 0 ==> r < n)
  {
    if n == 0 then 0 else And(n, n - 1)
  }

  function SkipHeight(height: int): (r: int)
    ensures 0 <= r && (height >= 1 ==> r < height)
  {
    if height < 2 then 0
    else if height % 2 == 1 then InvertLowestOne(InvertLowestOne(height - 1)) + 1
    else InvertLowestOne(height)
  }

  /** Whether the walk at height w on its way to g takes the skip pointer, rather than the step to the parent. */
  predicate Skips(w: int, g: int) {
    var heightSkip, heightSkipPrev := SkipHeight(w), SkipHeight(w - 1);
    heightSkip == g || (heightSkip > g && !(heightSkipPrev < heightSkip - 2 && heightSkipPrev >= g))
  }

  function Next(w: int, g: int): int {
    if Skips(w, g) then SkipHeight(w) else w - 1
  }

  // ---------- clearing bits ----------

  lemma {:induction false} AndSelf(x: nat)
    ensures And(x, x) == x
  {
    if x > 0 { AndSelf(x / 2); }
  }

  lemma ClearOdd(x: nat)
    ensures InvertLowestOne(2 * x + 1) == 2 * x
  {
    AndSelf(x);
  }

  lemma ClearEven(x: nat)
    ensures InvertLowestOne(2 * x) == 2 * InvertLowestOne(x)
  {
    if x > 0 {
      assert (2 * x - 1) / 2 == x - 1;
    }
  }

  lemma {:induction false} ClearLowest(x: nat, k: nat)
    ensures Pow2(k) * (2 * x + 1) >= 0 && Pow2(k) * (2 * x) >= 0
    ensures InvertLowestOne(Pow2(k) * (2 * x + 1)) == Pow2(k) * (2 * x)
    decreases k
  {
    hide InvertLowestOne, Pow2;
    if k == 0 {
      Pow2Zero();
      ClearOdd(x);
    } else {
      ClearLowest(x, k - 1);
      Pow2Double(k - 1);
      assert Pow2(k) * (2 * x + 1) == 2 * (Pow2(k - 1) * (2 * x + 1));
      assert Pow2(k) * (2 * x) == 2 * (Pow2(k - 1) * (2 * x));
      ClearEven(Pow2(k - 1) * (2 * x + 1));
    }
  }

  /** Where skip pointers lead, from the binary form of the height: an even height loses its lowest bit, and an odd
      one the two lowest above the last, or the only one. */
  lemma SkipHeightIs(x: nat, b: nat, a: nat)
    requires b > a >= 1
    ensures SkipHeight(Pow2(a) * (2 * x + 1)) == Pow2(a) * (2 * x)
    ensures SkipHeight(Pow2(b) * (2 * x + 1) + Pow2(a) + 1) == Pow2(b) * (2 * x) + 1
    ensures SkipHeight(Pow2(a) + 1) == 1
  {
    hide InvertLowestOne, Pow2, SkipHeight;
    Pow2Double(a - 1);
    ClearLowest(x, a);
    ClearLowest(0, a);
    ClearLowest(x, b);
    var y := LowestBits(x, b, a);
    ClearLowest(y, a);
    EvenHeight(Pow2(a) * (2 * x + 1), Pow2(a - 1) * (2 * x + 1));
    OddHeight(Pow2(a) * (2 * y + 1) + 1, Pow2(a - 1) * (2 * y + 1));
    OddHeight(Pow2(a) + 1, Pow2(a - 1));
  }

  lemma LowestBits(x: nat, b: nat, a: nat) returns (y: nat)
    requires b > a
    ensures Pow2(a) * (2 * y) == Pow2(b) * (2 * x + 1)
    ensures Pow2(a) * (2 * y + 1) == Pow2(b) * (2 * x + 1) + Pow2(a)
  {
    hide Pow2;
    var p, q, r := Pow2(a), Pow2(b - a - 1), 2 * x + 1;
    y := q * r;
    Pow2Double(b - a - 1);
    Pow2Sum(b - a, a);
    assert Pow2(b) == (2 * q) * p;
    assert p * (2 * (q * r)) == ((2 * q) * p) * r;
    assert p * (2 * y + 1) == p * (2 * y) + p;
  }

  lemma EvenHeight(h: nat, m: int)
    requires h == 2 * m && m >= 1
    ensures SkipHeight(h) == InvertLowestOne(h)
  {
  }

  lemma OddHeight(h: nat, m: int)
    requires h == 2 * m + 1 && m >= 1
    ensures SkipHeight(h) == InvertLowestOne(InvertLowestOne(h - 1)) + 1
  {
  }

  // ---------- where two numbers differ ----------

  /** The number of bits up to the highest one in which x and y differ. */
  ghost function Differ(x: nat, y: nat): nat
    decreases x + y
  {
    if x == y then 0 else 1 + Differ(x / 2, y / 2)
  }

  /** How many of the bits below that one are set in x. */
  ghost function Ones(x: nat, y: nat): nat
    decreases x + y
  {
    if x / 2 == y / 2 then 0 else x % 2 + Ones(x / 2, y / 2)
  }

  /** None of the bits below that one is set in y. */
  ghost predicate Bare(x: nat, y: nat)
    decreases x + y
  {
    x / 2 == y / 2 || (y % 2 == 0 && Bare(x / 2, y / 2))
  }

  /** x without the bits below that one. */
  ghost function Top(x: nat, y: nat): (m: nat)
    ensures m <= x && (x > y ==> m > y)
    decreases x + y
  {
    if x / 2 == y / 2 then x else 2 * Top(x / 2, y / 2)
  }

  lemma {:induction false} OnesBound(x: nat, y: nat)
    ensures x != y ==> Ones(x, y) < Differ(x, y)
    decreases x + y
  {
    if x / 2 != y / 2 { OnesBound(x / 2, y / 2); }
  }

  /** Between y and the top of x, fewer bits differ. */
  lemma {:induction false} FewerDiffer(x: nat, y: nat, r: nat)
    requires y <= r < Top(x, y) && y < x
    ensures Differ(r, y) < Differ(x, y)
    decreases x + y
  {
    if x / 2 != y / 2 { FewerDiffer(x / 2, y / 2, r / 2); }
  }

  lemma Halves(w: nat, g: nat)
    requires w / 2 > g / 2
    ensures Differ(w, g) == 1 + Differ(w / 2, g / 2) && Ones(w, g) == w % 2 + Ones(w / 2, g / 2)
    ensures Top(w, g) == 2 * Top(w / 2, g / 2) && Top(w / 2, g / 2) > g / 2
    ensures Bare(w, g) <==> g % 2 == 0 && Bare(w / 2, g / 2)
  {
  }

  lemma LastBit(x: nat, y: nat)
    requires x > y && x / 2 == y / 2
    ensures x == y + 1 == 2 * (x / 2) + 1 && Ones(x, y) == 0 && Top(x, y) == x && Bare(x, y)
  {
  }

  /** Clearing the lowest bit of x takes one of the set bits away, if there is one, or else goes below the top. */
  lemma {:induction false} Clearing(x: nat, y: nat)
    requires x > y
    ensures Ones(x, y) > 0 ==>
      var r := InvertLowestOne(x);
      && r > y && Differ(r, y) == Differ(x, y) && Ones(r, y) == Ones(x, y) - 1
      && Top(r, y) == Top(x, y) && (Bare(r, y) <==> Bare(x, y))
    ensures Ones(x, y) == 0 ==> x == Top(x, y) && InvertLowestOne(x) <= y && (InvertLowestOne(x) == y <==> Bare(x, y))
    decreases x + y
  {
    hide InvertLowestOne, Differ, Ones, Bare, Top;
    var h, l := x / 2, y / 2;
    if x % 2 == 1 { ClearOdd(h); } else { ClearEven(h); }
    if h == l {
      LastBit(x, y);
    } else {
      Clearing(h, l);
      Halves(x, y);
      if Ones(x, y) > 0 { Halves(InvertLowestOne(x), y); }
    }
  }

  lemma {:induction false} BareZero(x: nat)
    ensures Bare(x, 0)
    decreases x
  {
    if x / 2 != 0 { BareZero(x / 2); }
  }

  // ---------- the effort left ----------

  ghost function Phases(d: nat): nat {
    if d == 0 then 0 else Phases(d - 1) + d / 2 + 1
  }

  lemma PhasesStep(d: nat)
    ensures Phases(d + 1) == Phases(d) + (d + 1) / 2 + 1
  {
  }

  lemma {:induction false} PhasesMonotone(d: nat, e: nat)
    requires d <= e
    ensures Phases(d) <= Phases(e)
    decreases e
  {
    if d < e { PhasesMonotone(d, e - 1); }
  }

  /** What is left to do before the highest differing bit is cleared.  From an odd height two bits go at a time.
      From an even height it is one, and a change to odd heights may come first. */
  ghost function Rest(w: nat, g: nat): nat {
    var a := Ones(w, g);
    if w % 2 == 1 then (if a == 0 then 0 else a / 2 + 1)
    else if a >= 2 || (a == 1 && Bare(w / 2, g / 2)) then a + 2
    else a
  }

  ghost function Effort(w: nat, g: nat): nat {
    if w == g then 0 else Phases(Differ(w, g)) + Rest(w, g)
  }

  /** A step below the top, to an odd height or to the goal, is worth it. */
  lemma DropBelowTop(w: nat, g: nat, r: nat)
    requires g <= r < Top(w, g) && g < w && (r == g || r % 2 == 1)
    ensures Effort(r, g) < Effort(w, g)
  {
    hide Top, Ones, Bare, Differ, Phases;
    FewerDiffer(w, g, r);
    var d := Differ(r, g);
    PhasesStep(d);
    PhasesMonotone(d + 1, Differ(w, g));
    if r != g { OnesBound(r, g); }
  }

  lemma EffortPositive(w: nat, g: nat)
    requires w != g
    ensures Effort(g, g) == 0 < Effort(w, g)
  {
  }

  // ---------- odd heights ----------

  /** At an odd height 2x + 1 the skip clears two bits of x, and is taken whenever it does not go too far. */
  lemma OddSkip(x: nat, g: nat)
    ensures SkipHeight(2 * x + 1) == if x == 0 then 0 else 2 * InvertLowestOne(InvertLowestOne(x)) + 1
    ensures Skips(2 * x + 1, g) <==> SkipHeight(2 * x + 1) >= g
  {
    hide InvertLowestOne;
    ClearEven(x);
    ClearEven(InvertLowestOne(x));
  }

  lemma OddStep(x: nat, g: nat)
    requires 2 * x + 1 > g
    ensures g <= Next(2 * x + 1, g) <= 2 * x && Effort(Next(2 * x + 1, g), g) < Effort(2 * x + 1, g)
  {
    hide Differ, Ones, Bare, Top, InvertLowestOne, Effort, SkipHeight, Skips;
    OddSkip(x, g);
    var w, y := 2 * x + 1, g / 2;
    EffortPositive(w, g);
    if x > y {
      if Skips(w, g) { OddForward(x, g); } else { OddBack(x, g); }
    }
  }

  /** Two bits are taken away, or the highest differing one is. */
  lemma OddForward(x: nat, g: nat)
    requires x > g / 2 && 2 * InvertLowestOne(InvertLowestOne(x)) + 1 >= g
    ensures Effort(2 * InvertLowestOne(InvertLowestOne(x)) + 1, g) < Effort(2 * x + 1, g)
  {
    hide Differ, Ones, Bare, Top, InvertLowestOne;
    var w, y, c := 2 * x + 1, g / 2, InvertLowestOne(x);
    var r := InvertLowestOne(c);
    assert (2 * r + 1) / 2 == r;
    Halves(w, g);
    Clearing(x, y);
    if Ones(x, y) > 0 { Clearing(c, y); }
    if Ones(x, y) >= 2 { Halves(2 * r + 1, g); } else { DropBelowTop(w, g, 2 * r + 1); }
  }

  /** The skip would go too far: at most one bit is left to take away, and it goes next. */
  lemma OddBack(x: nat, g: nat)
    requires x > g / 2 && 2 * InvertLowestOne(InvertLowestOne(x)) + 1 < g
    ensures Effort(2 * x, g) < Effort(2 * x + 1, g)
  {
    hide Differ, Ones, Bare, Top, InvertLowestOne;
    var y, c := g / 2, InvertLowestOne(x);
    Halves(2 * x + 1, g);
    Halves(2 * x, g);
    Clearing(x, y);
    if Ones(x, y) > 0 { Clearing(c, y); }
  }

  // ---------- even heights ----------

  lemma EvenStep(x: nat, g: nat)
    requires 2 * x > g
    ensures g <= Next(2 * x, g) < 2 * x && Effort(Next(2 * x, g), g) < Effort(2 * x, g)
  {
    hide Differ, Ones, Bare, Top, InvertLowestOne, Effort;
    ClearEven(x);
    EffortPositive(2 * x, g);
    if Skips(2 * x, g) {
      if SkipHeight(2 * x) > g { EvenForward(x, g); }
    } else if SkipHeight(2 * x) < g {
      EvenBack(x, g);
    } else {
      EvenChange(x, g);
    }
  }

  /** One bit is taken away. */
  lemma EvenForward(x: nat, g: nat)
    requires 2 * InvertLowestOne(x) > g
    ensures Effort(2 * InvertLowestOne(x), g) < Effort(2 * x, g)
  {
    hide Differ, Ones, Bare, Top, InvertLowestOne;
    var r := InvertLowestOne(x);
    Clearing(x, g / 2);
    Halves(2 * x, g);
    Halves(2 * r, g);
  }

  /** The skip would go too far: no bit is left to take away but the highest differing one. */
  lemma EvenBack(x: nat, g: nat)
    requires 2 * InvertLowestOne(x) < g < 2 * x
    ensures Effort(2 * x - 1, g) < Effort(2 * x, g)
  {
    hide Differ, Ones, Bare, Top, InvertLowestOne;
    Clearing(x, g / 2);
    Halves(2 * x, g);
    DropBelowTop(2 * x, g, 2 * x - 1);
  }

  /** The skip of the parent is better: a change to odd heights. */
  lemma EvenChange(x: nat, g: nat)
    requires x > 0 && g <= SkipHeight(2 * x - 1) < 2 * InvertLowestOne(x) - 2 && g < 2 * InvertLowestOne(x)
    ensures Effort(2 * x - 1, g) < Effort(2 * x, g)
  {
    hide Differ, Ones, Bare, Top, InvertLowestOne, Effort, SkipHeight;
    OddSkip(x - 1, g);
    var u := x / 4;
    if x == 4 * u + 1 {
      ChangeAtOne(2 * u, g);
    } else if x == 4 * u + 3 {
      ChangeAtOne(2 * u + 1, g);
    } else if x == 4 * u + 2 {
      ChangeAtTwo(u, g);
    } else {
      NoChange(u);
    }
  }

  lemma ChangeAtOne(z: nat, g: nat)
    requires 4 * z > g && (z > 0 ==> 2 * InvertLowestOne(InvertLowestOne(2 * z)) + 1 >= g)
    ensures Effort(4 * z + 1, g) < Effort(4 * z + 2, g)
  {
    hide Differ, Ones, Bare, Top, InvertLowestOne;
    var x, y := 2 * z + 1, g / 2;
    ClearOdd(z);
    Clearing(x, y);
    Halves(2 * x, g);
    Halves(2 * x - 1, g);
    Clearing(2 * z, y);
    BareZero(x);
  }

  lemma ChangeAtTwo(v: nat, g: nat)
    requires 8 * v > g && 2 * InvertLowestOne(InvertLowestOne(4 * v + 1)) + 1 >= g
    ensures Effort(8 * v + 3, g) < Effort(8 * v + 4, g)
  {
    hide Differ, Ones, Bare, Top, InvertLowestOne;
    var z, x, y, u := 2 * v + 1, 4 * v + 2, g / 2, g / 4;
    assert y / 2 == u && x / 2 == z;
    ClearOdd(v);
    ClearOdd(2 * v);
    ClearEven(2 * v);
    Clearing(z, u);
    Halves(2 * x, g);
    Halves(x, y);
    Halves(2 * x - 1, g);
    Halves(x - 1, y);
    Clearing(2 * v, u);
  }

  lemma NoChange(u: nat)
    requires u > 0
    ensures 2 * InvertLowestOne(InvertLowestOne(4 * u - 1)) + 1 >= 2 * InvertLowestOne(4 * u) - 2
  {
    hide InvertLowestOne;
    ClearOdd(2 * u - 1);
    ClearEven(2 * u - 1);
    ClearOdd(u - 1);
    ClearEven(2 * u);
    ClearEven(u);
  }

  // ---------- the number of steps ----------

  /** Every step of the walk lowers the effort. */
  lemma StepHelps(w: nat, g: nat)
    requires w > g
    ensures g <= Next(w, g) < w && Effort(Next(w, g), g) < Effort(w, g)
  {
    hide Next, Effort;
    if w % 2 == 1 { OddStep(w / 2, g); } else { EvenStep(w / 2, g); }
  }

  lemma {:induction false} PhasesProduct(d: nat)
    ensures Phases(d) == (d / 2) * ((d + 1) / 2) + d
  {
    if d > 0 {
      PhasesProduct(d - 1);
      var h := d / 2;
      if d % 2 == 0 { assert (h - 1) * h + h == h * h; } else { assert h * h + h == h * (h + 1); }
    }
  }

  /** The number of bits of n. */
  function BitLength(n: nat): nat {
    if n == 0 then 0 else 1 + BitLength(n / 2)
  }

  lemma {:induction false} DifferBound(x: nat, y: nat)
    requires x >= y
    ensures Differ(x, y) <= BitLength(x)
    decreases x
  {
    if x > y { DifferBound(x / 2, y / 2); }
  }

  /** A walk from height w takes at most about a quarter of the square of the number of bits of w. */
  function MaxSteps(w: nat): nat {
    (BitLength(w) / 2) * ((BitLength(w) + 1) / 2) + 2 * BitLength(w) + 1
  }

  lemma EffortBound(w: nat, g: nat)
    requires w >= g
    ensures Effort(w, g) <= MaxSteps(w)
  {
    hide Differ, Ones, Bare, BitLength, Phases;
    if w > g {
      OnesBound(w, g);
      DifferBound(w, g);
      PhasesMonotone(Differ(w, g), BitLength(w));
      PhasesProduct(BitLength(w));
    }
  }
}
