/** Base conversion between bytes and base-58 strings. */
module Base58 {
  import opened Wrappers
  import LimbMath

  // ---------- numbers as digits, highest first ----------

  function Pow(b: nat, n: nat): (r: nat)
    ensures b >= 1 ==> r >= 1
  {
    if n == 0 then 1 else b * Pow(b, n - 1)
  }

  function Value(s: seq<int>, b: int): int {
    if s == [] then 0 else Value(s[..|s| - 1], b) * b + s[|s| - 1]
  }

  predicate Below(s: seq<int>, b: int) {
    forall i :: 0 <= i < |s| ==> 0 <= s[i] < b
  }

  /** The digits of a number without leading zeroes. */
  function Digits(v: nat, b: nat): (s: seq<int>)
    requires b >= 2
  {
    if v == 0 then [] else (Smaller(v, b); Digits(v / b, b)) + [v % b]
  }

  lemma Smaller(v: nat, b: nat)
    requires v > 0 && b >= 2
    ensures 0 <= v / b < v && 0 <= v % b < b && v == (v / b) * b + v % b
  {
    var q, r := v / b, v % b;
    assert v == q * b + r;
    assert q < 0 ==> q * b + b <= 0;
    assert q >= v ==> q * b >= v * b >= 2 * v;
  }

  lemma {:induction false} DigitsValue(v: nat, b: nat)
    requires b >= 2
    ensures Below(Digits(v, b), b) && Value(Digits(v, b), b) == v
    ensures v > 0 ==> |Digits(v, b)| > 0 && Digits(v, b)[0] != 0
    decreases v
  {
    if v > 0 {
      hide Digits, Value;
      Smaller(v, b);
      var q, r := v / b, v % b;
      DigitsValue(q, b);
      DigitsStep(v, b);
      ValueAppend(Digits(q, b), r, b);
      if q == 0 { NoDigits(b); }
    } else {
      NoDigits(b);
    }
  }

  lemma DigitsStep(v: nat, b: nat)
    requires v > 0 && b >= 2
    ensures 0 <= v / b && Digits(v, b) == Digits(v / b, b) + [v % b]
  {
    Smaller(v, b);
  }

  lemma ValueAppend(s: seq<int>, d: int, b: int)
    ensures Value(s + [d], b) == Value(s, b) * b + d
  {
    assert (s + [d])[..|s|] == s;
  }

  lemma NoDigits(b: nat)
    requires b >= 2
    ensures Digits(0, b) == [] && Value([], b) == 0
  {
  }

  /** Digits without leading zeroes are determined by their value. */
  lemma {:induction false} DigitsUnique(s: seq<int>, b: nat)
    requires b >= 2 && Below(s, b) && (s != [] ==> s[0] != 0)
    ensures 0 <= Value(s, b) && Digits(Value(s, b), b) == s
    ensures s != [] ==> Value(s, b) > 0
    decreases |s|
  {
    if s != [] {
      var n := |s| - 1;
      var t := s[..n];
      assert t != [] ==> t[0] == s[0];
      DigitsUnique(t, b);
      LastDigit(Value(t, b), s[n], b);
      assert t == [] ==> Value(s, b) == s[n];
    }
  }

  lemma LastDigit(q: nat, d: nat, b: nat)
    requires b >= 2 && d < b
    ensures (q * b + d) / b == q && (q * b + d) % b == d
    ensures q > 0 ==> q * b + d > 0
    ensures q * b + d >= 0
  {
    LimbMath.DivModUnique(q * b + d, b, q, d);
  }

  /** The number of zeroes a sequence starts with. */
  function Leading(s: seq<int>): (n: nat)
    ensures n <= |s|
    ensures forall i :: 0 <= i < n ==> s[i] == 0
    ensures n < |s| ==> s[n] != 0
  {
    if s == [] || s[0] != 0 then 0 else 1 + Leading(s[1..])
  }

  function Zeroes(n: nat): (s: seq<int>)
    ensures |s| == n && forall i :: 0 <= i < n ==> s[i] == 0
  {
    seq(n, _ => 0)
  }

  lemma {:induction false} ValueConcat(x: seq<int>, y: seq<int>, b: nat)
    ensures Value(x + y, b) == Value(x, b) * Pow(b, |y|) + Value(y, b)
    decreases |y|
  {
    if y == [] {
      assert x + y == x;
    } else {
      var n := |y| - 1;
      assert (x + y)[..|x| + n] == x + y[..n];
      ValueConcat(x, y[..n], b);
      ConcatStep(Value(x, b), Pow(b, n), Value(y[..n], b), b);
    }
  }

  lemma ConcatStep(x: int, p: int, y: int, b: int)
    ensures (x * p + y) * b == x * (b * p) + y * b
  {
  }

  lemma {:induction false} ValueBound(s: seq<int>, b: nat)
    requires b >= 1 && Below(s, b)
    ensures 0 <= Value(s, b) < Pow(b, |s|)
    decreases |s|
  {
    if s != [] {
      var n := |s| - 1;
      ValueBound(s[..n], b);
      BoundStep(Value(s[..n], b), s[n], b, Pow(b, n));
    }
  }

  lemma BoundStep(v: int, d: int, b: int, p: int)
    requires 0 <= v < p && 0 <= d < b
    ensures 0 <= v * b + d < b * p
  {
    assert (v + 1) * b <= p * b;
    assert (v + 1) * b == v * b + b;
  }

  lemma {:induction false} ZeroesValue(n: nat, b: nat)
    ensures Value(Zeroes(n), b) == 0
    decreases n
  {
    if n > 0 {
      assert Zeroes(n)[..n - 1] == Zeroes(n - 1);
      ZeroesValue(n - 1, b);
    }
  }

  /** A digit sequence is its leading zeroes and the digits of its value. */
  lemma Stripped(s: seq<int>, b: nat)
    requires b >= 2 && Below(s, b)
    ensures 0 <= Value(s, b)
    ensures s[Leading(s)..] == Digits(Value(s, b), b)
    ensures s == Zeroes(Leading(s)) + Digits(Value(s, b), b)
  {
    hide Value, Digits, Pow;
    var z := Leading(s);
    var t := s[z..];
    assert s == Zeroes(z) + t;
    ZeroesValue(z, b);
    ValueConcat(Zeroes(z), t, b);
    DigitsUnique(t, b);
  }

  // ---------- the buffers are long enough ----------

  lemma {:induction false} PowSum(b: nat, m: nat, n: nat)
    ensures Pow(b, m + n) == Pow(b, m) * Pow(b, n)
    decreases m
  {
    if m > 0 {
      PowSum(b, m - 1, n);
      PowNext(b, m - 1);
      PowNext(b, m - 1 + n);
      hide Pow;
      Reassociate(b, Pow(b, m - 1), Pow(b, n));
    }
  }

  lemma PowNext(b: nat, n: nat)
    ensures Pow(b, n + 1) == b * Pow(b, n)
  {
  }

  lemma Reassociate(b: int, p: int, q: int)
    ensures b * (p * q) == (b * p) * q
  {
  }

  lemma {:induction false} PowMono(b: nat, m: nat, n: nat)
    requires b >= 1 && m <= n
    ensures Pow(b, m) <= Pow(b, n)
    decreases n - m
  {
    if m < n { PowMono(b, m + 1, n); assert b * Pow(b, m) >= Pow(b, m); }
  }

  /** Powers that fit can be combined. */
  lemma FitsSum(a: nat, b: nat, j: nat, k: nat, m: nat, n: nat)
    requires Pow(a, j) <= Pow(b, m) && Pow(a, k) <= Pow(b, n)
    ensures Pow(a, j + k) <= Pow(b, m + n)
  {
    hide Pow;
    PowSum(a, j, k);
    PowSum(b, m, n);
    ProductLe(Pow(a, j), Pow(b, m), Pow(a, k), Pow(b, n));
  }

  lemma ProductLe(w: nat, x: nat, y: nat, z: nat)
    requires w <= x && y <= z
    ensures w * y <= x * z
  {
    assert w * y <= x * y <= x * z;
  }

  lemma Powers256()
    ensures Pow(256, 0) == 1
    ensures Pow(256, 1) == 256
    ensures Pow(256, 2) == 65536
    ensures Pow(256, 3) == 16777216
    ensures Pow(256, 4) == 4294967296
    ensures Pow(256, 5) == 1099511627776
    ensures Pow(256, 6) == 281474976710656
    ensures Pow(256, 7) == 72057594037927936
    ensures Pow(256, 8) == 18446744073709551616
    ensures Pow(256, 9) == 4722366482869645213696
    ensures Pow(256, 10) == 1208925819614629174706176
    ensures Pow(256, 11) == 309485009821345068724781056
  {
    assert Pow(256, 0) == 1;
    hide Pow;
    PowNext(256, 0);
    PowNext(256, 1);
    PowNext(256, 2);
    PowNext(256, 3);
    PowNext(256, 4);
    PowNext(256, 5);
    PowNext(256, 6);
    PowNext(256, 7);
    PowNext(256, 8);
    PowNext(256, 9);
    PowNext(256, 10);
  }

  lemma Powers58()
    ensures Pow(58, 0) == 1
    ensures Pow(58, 1) == 58
    ensures Pow(58, 2) == 3364
    ensures Pow(58, 3) == 195112
    ensures Pow(58, 4) == 11316496
    ensures Pow(58, 5) == 656356768
    ensures Pow(58, 6) == 38068692544
    ensures Pow(58, 7) == 2207984167552
    ensures Pow(58, 8) == 128063081718016
    ensures Pow(58, 9) == 7427658739644928
    ensures Pow(58, 10) == 430804206899405824
    ensures Pow(58, 11) == 24986644000165537792
    ensures Pow(58, 12) == 1449225352009601191936
    ensures Pow(58, 13) == 84055070416556869132288
    ensures Pow(58, 14) == 4875194084160298409672704
    ensures Pow(58, 15) == 282761256881297307761016832
  {
    assert Pow(58, 0) == 1;
    hide Pow;
    PowNext(58, 0);
    PowNext(58, 1);
    PowNext(58, 2);
    PowNext(58, 3);
    PowNext(58, 4);
    PowNext(58, 5);
    PowNext(58, 6);
    PowNext(58, 7);
    PowNext(58, 8);
    PowNext(58, 9);
    PowNext(58, 10);
    PowNext(58, 11);
    PowNext(58, 12);
    PowNext(58, 13);
    PowNext(58, 14);
  }

  /** 256^n never needs more than n * 138 / 100 + 1 digits in base 58. */
  lemma {:induction false} EncodeFits(n: nat)
    ensures Pow(256, n) <= Pow(58, n * 138 / 100 + 1)
    decreases n
  {
    hide Pow;
    Powers256();
    Powers58();
    if n >= 8 {
      EncodeFits(n - 8);
      FitsSum(256, 58, n - 8, 8, (n - 8) * 138 / 100 + 1, 11);
      PowMono(58, (n - 8) * 138 / 100 + 12, n * 138 / 100 + 1);
    }
  }

  lemma Powers71()
    ensures Pow(58, 71) <= Pow(256, 52)
  {
    hide Pow;
    Powers58();
    Powers256();
    PowSum(58, 15, 15);
    PowSum(58, 30, 30);
    PowSum(58, 60, 11);
    PowSum(256, 11, 11);
    PowSum(256, 22, 22);
    PowSum(256, 44, 8);
  }

  /** 58^n never needs more than n * 733 / 1000 + 1 bytes. */
  lemma {:induction false} DecodeFits(n: nat)
    ensures Pow(58, n) <= Pow(256, n * 733 / 1000 + 1)
    decreases n
  {
    hide Pow;
    if n >= 71 {
      Powers71();
      DecodeFits(n - 71);
      FitsSum(58, 256, n - 71, 71, (n - 71) * 733 / 1000 + 1, 52);
      PowMono(256, (n - 71) * 733 / 1000 + 53, n * 733 / 1000 + 1);
    } else {
      var a, r := n / 15, n % 15;
      BlocksOf15(a);
      BelowFifteen(r);
      if r == 0 {
        PowMono(256, 11 * a, n * 733 / 1000 + 1);
      } else {
        FitsSum(58, 256, 15 * a, r, 11 * a, r * 733 / 1000 + 1);
        NoCarry(a, r);
        PowMono(256, 11 * a + r * 733 / 1000 + 1, n * 733 / 1000 + 1);
      }
    }
  }

  lemma NoCarry(a: nat, r: nat)
    requires a <= 4 && 0 < r < 15
    ensures 11 * a + r * 733 / 1000 <= (15 * a + r) * 733 / 1000
  {
    var x := r * 733;
    assert x % 1000 >= 20;
    assert (15 * a + r) * 733 == 1000 * (11 * a + x / 1000) + (x % 1000 - 5 * a);
  }

  lemma {:induction false} BlocksOf15(a: nat)
    ensures Pow(58, 15 * a) <= Pow(256, 11 * a)
    decreases a
  {
    hide Pow;
    Powers58();
    Powers256();
    if a > 0 {
      BlocksOf15(a - 1);
      FitsSum(58, 256, 15 * (a - 1), 15, 11 * (a - 1), 11);
    }
  }

  lemma BelowFifteen(r: nat)
    requires r < 15
    ensures Pow(58, r) <= Pow(256, r * 733 / 1000 + 1)
  {
    hide Pow;
    Powers58();
    Powers256();
  }

  // ---------- the alphabet ----------

  /** All alphanumeric characters except 0, I, O and l, in runs of consecutive characters. */
  const ALPHABET := "123456789" + "ABCDEFGH" + "JKLMN" + "PQRSTUVWXYZ" + "abcdefghijk" + "mnopqrstuvwxyz"

  /** The same alphabet by its runs of consecutive characters. */
  function Letter(d: int): char
    requires 0 <= d < 58
  {
    if d < 9 then ('1' as int + d) as char
    else if d < 17 then ('A' as int + d - 9) as char
    else if d < 22 then ('J' as int + d - 17) as char
    else if d < 33 then ('P' as int + d - 22) as char
    else if d < 44 then ('a' as int + d - 33) as char
    else ('m' as int + d - 44) as char
  }

  /** Consecutive characters. */
  predicate IsRun(s: string, from: char) {
    forall i :: 0 <= i < |s| ==> s[i] as int == from as int + i
  }

  lemma Runs()
    ensures IsRun("123456789", '1') && IsRun("ABCDEFGH", 'A') && IsRun("JKLMN", 'J')
    ensures IsRun("PQRSTUVWXYZ", 'P') && IsRun("abcdefghijk", 'a') && IsRun("mnopqrstuvwxyz", 'm')
  {
  }

  lemma AlphabetLetters()
    ensures |ALPHABET| == 58 && forall d :: 0 <= d < 58 ==> ALPHABET[d] == Letter(d)
  {
    Runs();
  }

  /** The digit a character stands for, or -1. */
  function DigitOf(c: char): (d: int)
    ensures -1 <= d < 58
    ensures d >= 0 ==> Letter(d) == c
  {
    if '1' <= c <= '9' then c as int - '1' as int
    else if 'A' <= c <= 'H' then c as int - 'A' as int + 9
    else if 'J' <= c <= 'N' then c as int - 'J' as int + 17
    else if 'P' <= c <= 'Z' then c as int - 'P' as int + 22
    else if 'a' <= c <= 'k' then c as int - 'a' as int + 33
    else if 'm' <= c <= 'z' then c as int - 'm' as int + 44
    else -1
  }

  predicate IsSpace(c: char) {
    c == ' ' || 9 <= c as int <= 13
  }

  lemma LetterDigit(d: int)
    requires 0 <= d < 58
    ensures DigitOf(Letter(d)) == d && !IsSpace(Letter(d)) && (Letter(d) == '1' <==> d == 0) && Letter(d) != '\0'
  {
  }

  // ---------- the two conversions as functions ----------

  /** A digit sequence in base b as one in base c with as many leading zeroes. */
  function Renumber(s: seq<int>, b: nat, c: nat): (r: seq<int>)
    requires b >= 2 && c >= 2 && Below(s, b)
  {
    Stripped(s, b);
    Zeroes(Leading(s)) + Digits(Value(s, b), c)
  }

  lemma RenumberKeeps(s: seq<int>, b: nat, c: nat)
    requires b >= 2 && c >= 2 && Below(s, b)
    ensures
      var r := Renumber(s, b, c);
      Below(r, c) && Value(r, c) == Value(s, b) && Leading(r) == Leading(s)
  {
    hide Value, Digits, Pow, Leading, Zeroes;
    Stripped(s, b);
    var z, v := Leading(s), Value(s, b);
    var d := Digits(v, c);
    DigitsValue(v, c);
    ZeroesValue(z, c);
    ValueConcat(Zeroes(z), d, c);
    TimesNothing(Pow(c, |d|));
    if v == 0 { NoDigits(c); }
    LeadingIs(Zeroes(z) + d, z);
  }

  lemma TimesNothing(p: int)
    ensures 0 * p == 0
  {
  }

  lemma LeadingIs(s: seq<int>, n: nat)
    requires n <= |s| && (forall i :: 0 <= i < n ==> s[i] == 0) && (n < |s| ==> s[n] != 0)
    ensures Leading(s) == n
  {
  }

  /** Renumbering there and back gives the same digits. */
  lemma RenumberBack(s: seq<int>, b: nat, c: nat)
    requires b >= 2 && c >= 2 && Below(s, b)
    ensures Below(Renumber(s, b, c), c) && Renumber(Renumber(s, b, c), c, b) == s
  {
    hide Value, Digits, Leading;
    RenumberKeeps(s, b, c);
    Stripped(s, b);
  }

  function Letters(s: seq<int>): (r: string)
    requires Below(s, 58)
    ensures |r| == |s|
  {
    seq(|s|, i requires 0 <= i < |s| => Letter(s[i]))
  }

  predicate IsText(s: string) {
    forall i :: 0 <= i < |s| ==> DigitOf(s[i]) >= 0
  }

  function TextDigits(s: string): (r: seq<int>)
    requires IsText(s)
    ensures |r| == |s| && Below(r, 58)
  {
    seq(|s|, i requires 0 <= i < |s| => DigitOf(s[i]))
  }

  /** The index of the first character that is not a space. */
  function Start(s: string): (n: nat)
    ensures n <= |s| && (forall i :: 0 <= i < n ==> IsSpace(s[i])) && (n < |s| ==> !IsSpace(s[n]))
  {
    if s != [] && IsSpace(s[0]) then 1 + Start(s[1..]) else 0
  }

  /** The index after the last character that is not a space. */
  function End(s: string): (n: nat)
    ensures n <= |s| && (forall i :: n <= i < |s| ==> IsSpace(s[i])) && (n > 0 ==> !IsSpace(s[n - 1]))
  {
    if s != [] && IsSpace(s[|s| - 1]) then End(s[..|s| - 1]) else |s|
  }

  function Trimmed(s: string): string {
    if Start(s) < End(s) then s[Start(s)..End(s)] else []
  }

  function Encoded(v: seq<int>): (s: string)
    requires Below(v, 256)
  {
    RenumberKeeps(v, 256, 58);
    Letters(Renumber(v, 256, 58))
  }

  function Decoded(s: string): (v: Option<seq<int>>) {
    if IsText(Trimmed(s)) then Some(Renumber(TextDigits(Trimmed(s)), 58, 256)) else None
  }

  lemma LettersText(s: seq<int>)
    requires Below(s, 58)
    ensures IsText(Letters(s)) && TextDigits(Letters(s)) == s && Trimmed(Letters(s)) == Letters(s)
  {
    var r := Letters(s);
    forall i | 0 <= i < |r| ensures DigitOf(r[i]) == s[i] && !IsSpace(r[i]) {
      LetterDigit(s[i]);
    }
    if r != [] {
      assert Start(r) == 0 && End(r) == |r|;
    }
  }

  /** Decoding what was encoded gives the bytes back, for every byte string. */
  lemma DecodeEncoded(v: seq<int>)
    requires Below(v, 256)
    ensures Decoded(Encoded(v)) == Some(v)
  {
    hide Renumber, Letters, TextDigits, Trimmed, IsText;
    RenumberBack(v, 256, 58);
    LettersText(Renumber(v, 256, 58));
  }

  /** Encoding what was decoded gives the text back, without the spaces around it. */
  lemma EncodeDecoded(s: string)
    requires Decoded(s).Some?
    ensures Below(Decoded(s).value, 256) && Encoded(Decoded(s).value) == Trimmed(s)
  {
    hide Renumber, Trimmed;
    RenumberBack(TextDigits(Trimmed(s)), 58, 256);
    assert Letters(TextDigits(Trimmed(s))) == Trimmed(s);
  }

  /** What an encoding means: the letters are the digits of the same number in base 58, after one '1' for every
      zero byte at the start. */
  lemma EncodedMeans(v: seq<int>) returns (d: seq<int>)
    requires Below(v, 256)
    ensures Below(d, 58) && |d| == |Encoded(v)| && Value(d, 58) == Value(v, 256) && Leading(d) == Leading(v)
    ensures |ALPHABET| == 58 && forall i :: 0 <= i < |d| ==> Encoded(v)[i] == ALPHABET[d[i]]
  {
    hide Renumber, Value, Leading, Letter, ALPHABET;
    RenumberKeeps(v, 256, 58);
    AlphabetLetters();
    d := Renumber(v, 256, 58);
  }

  /** One of the published pairs. */
  lemma EncodedExample()
    ensures Encoded([0x62, 0x62, 0x62]) == "a3gV"
  {
    var s := [0x62, 0x62, 0x62];
    assert s[..2] == [0x62, 0x62] && [0x62, 0x62][..1] == [0x62] && [0x62][..0] == [];
    assert Value([], 256) == 0 && Value([0x62], 256) == 98 && Value([0x62, 0x62], 256) == 25186;
    assert Value(s, 256) == 6447714;
    assert Digits(0, 58) == [] && Digits(33, 58) == [33] && Digits(1916, 58) == [33, 2];
    assert Digits(111167, 58) == [33, 2, 39] && Digits(6447714, 58) == [33, 2, 39, 28];
  }

  // ---------- the conversions in place ----------

  lemma ValueCons(s: seq<int>, i: nat, b: nat)
    requires i < |s|
    ensures Value(s[i..], b) == s[i] * Pow(b, |s| - i - 1) + Value(s[i + 1..], b)
  {
    assert s[i..] == [s[i]] + s[i + 1..];
    ValueConcat([s[i]], s[i + 1..], b);
    assert Value([s[i]], b) == s[i] by { assert [s[i]][..0] == []; }
  }

  lemma CarryStep(vr: int, va: int, carry: int, mul: int, add: int, d: int, n: int, b: int, w: int)
    requires vr + carry * w == mul * va + add && n == carry + mul * d && b > 0
    ensures (n % b) * w + vr + (n / b) * (b * w) == mul * (d * w + va) + add
  {
    var q, r := n / b, n % b;
    assert n == q * b + r;
    assert q * (b * w) == (q * b) * w;
    assert (q * b + r) * w == (q * b) * w + r * w;
    assert (carry + mul * d) * w == carry * w + mul * (d * w);
    assert mul * (d * w + va) == mul * (d * w) + mul * va;
  }

  lemma CarryFits(carry: int, d: int, mul: int, b: int)
    requires 0 <= carry <= mul && 0 <= d < b
    ensures 0 <= carry + mul * d <= mul * b
    ensures 0 <= (carry + mul * d) / b <= mul && 0 <= (carry + mul * d) % b < b
  {
    var n := carry + mul * d;
    assert mul * d <= mul * (b - 1) == mul * b - mul;
    assert 0 <= mul * d;
    var q, r := n / b, n % b;
    assert n == q * b + r;
    assert q < 0 ==> q * b + b <= 0;
    assert q > mul ==> q * b >= (mul + 1) * b == mul * b + b;
  }

  /** Multiplies the number in the buffer and adds to it, in place; no step exceeds mul * b. */
  method MulAdd(buf: array<int>, mul: nat, add: nat, b: nat) returns (carry: int)
    requires b >= 2 && mul >= 1 && add < mul && Below(buf[..], b)
    modifies buf
    ensures Below(buf[..], b)
    ensures Value(buf[..], b) + carry * Pow(b, buf.Length) == mul * old(Value(buf[..], b)) + add
    ensures carry >= 0
  {
    ghost var a := buf[..];
    ghost var n := buf.Length;
    carry := add;
    var i := buf.Length;
    assert a[n..] == [] && buf[n..] == [];
    assert Value([], b) == 0 && Pow(b, 0) == 1;
    hide Value, Pow;
    while i > 0
      invariant 0 <= i <= n && 0 <= carry <= mul && Below(buf[..], b)
      invariant buf[..i] == a[..i]
      invariant Value(buf[i..], b) + carry * Pow(b, n - i) == mul * Value(a[i..], b) + add
    {
      i := i - 1;
      ghost var r := buf[i + 1..];
      assert buf[i] == buf[..i + 1][i] == a[i];
      CarryFits(carry, buf[i], mul, b);
      ghost var carry0 := carry;
      var x := carry + mul * buf[i];
      buf[i] := x % b;
      carry := x / b;
      assert buf[i + 1..] == r;
      assert buf[..][i..] == buf[i..] && buf[..][i + 1..] == r;
      ValueCons(buf[..], i, b);
      ValueCons(a, i, b);
      PowNext(b, n - i - 1);
      CarryStep(Value(r, b), Value(a[i + 1..], b), carry0, mul, add, a[i], x, b, Pow(b, n - i - 1));
    }
    assert buf[0..] == buf[..] && a[0..] == a;
  }

  /** Feeding one more digit to the buffer: the value fits, so nothing is carried out. */
  lemma NoCarryOut(v: int, carry: int, s: seq<int>, k: nat, b: nat, mul: nat, n: nat)
    requires k < |s| && b >= 1 && mul >= 1 && Below(s, mul) && Pow(mul, |s|) <= Pow(b, n)
    requires 0 <= v && 0 <= carry && v + carry * Pow(b, n) == mul * Value(s[..k], mul) + s[k]
    ensures carry == 0 && v == Value(s[..k + 1], mul)
  {
    hide Value, Pow;
    ValuePrefix(s, k, mul);
    ValueBound(s[..k + 1], mul);
    PowMono(mul, k + 1, |s|);
    NothingOver(v, carry, Pow(b, n), Value(s[..k + 1], mul));
  }

  lemma ValuePrefix(s: seq<int>, k: nat, b: nat)
    requires k < |s|
    ensures Value(s[..k + 1], b) == b * Value(s[..k], b) + s[k]
  {
    assert s[..k + 1][..k] == s[..k];
  }

  lemma NothingOver(v: int, carry: int, p: int, x: int)
    requires v + carry * p == x < p && 0 <= v && 0 <= carry && 0 < p
    ensures carry == 0
  {
    assert carry >= 1 ==> carry * p >= p;
  }

  /** One digit more, in place; nothing is carried out of the buffer. */
  method Feed(buf: array<int>, ghost s: seq<int>, ghost k: nat, d: nat, mul: nat, b: nat)
    requires b >= 2 && mul >= 2 && Below(s, mul) && Pow(mul, |s|) <= Pow(b, buf.Length) && k < |s| && d == s[k]
    requires Below(buf[..], b) && Value(buf[..], b) == Value(s[..k], mul)
    modifies buf
    ensures Below(buf[..], b) && Value(buf[..], b) == Value(s[..k + 1], mul)
  {
    hide Value, Pow;
    var carry := MulAdd(buf, mul, d, b);
    ValueBound(buf[..], b);
    NoCarryOut(Value(buf[..], b), carry, s, k, b, mul, buf.Length);
    assert carry == 0;
  }

  method Encode(bytes: seq<int>) returns (str: string)
    requires Below(bytes, 256)
    ensures str == Encoded(bytes)
  {
    hide Value, Pow, Renumber, Letters, Leading;
    // Skip and count leading zeroes.
    var zeroes := 0;
    while zeroes < |bytes| && bytes[zeroes] == 0
      invariant 0 <= zeroes <= |bytes| && forall i :: 0 <= i < zeroes ==> bytes[i] == 0
    {
      zeroes := zeroes + 1;
    }
    LeadingIs(bytes, zeroes);
    var b58 := ToBuffer(bytes[zeroes..]);
    var it := SkipZeroes(b58);
    Converted(bytes, 256, b58[..], 58);
    RenumberKeeps(bytes, 256, 58);
    str := Translate(zeroes, b58, it);
  }

  method ToBuffer(rest: seq<int>) returns (b58: array<int>)
    requires Below(rest, 256)
    ensures fresh(b58) && Below(b58[..], 58) && Value(b58[..], 58) == Value(rest, 256)
  {
    hide Value, Pow;
    b58 := new int[|rest| * 138 / 100 + 1](_ => 0);
    EncodeFits(|rest|);
    StartBuffer(b58[..], 58, rest, 256);
    ghost var size := b58.Length;
    var k := 0;
    while k < |rest|
      invariant 0 <= k <= |rest| && b58.Length == size && Below(b58[..], 58)
      invariant Value(b58[..], 58) == Value(rest[..k], 256)
    {
      Feed(b58, rest, k, rest[k], 256, 58);
      k := k + 1;
    }
    assert rest[..k] == rest;
  }

  /** Writes the leading zeroes and the rest of the buffer as letters. */
  method Translate(zeroes: nat, b58: array<int>, from: nat) returns (str: string)
    requires from <= b58.Length && Below(b58[..], 58)
    ensures Below(Zeroes(zeroes) + b58[from..], 58) && str == Letters(Zeroes(zeroes) + b58[from..])
  {
    AlphabetLetters();
    hide ALPHABET;
    str := seq(zeroes, _ => '1');
    var it := from;
    while it < b58.Length
      invariant from <= it <= b58.Length && |str| == zeroes + it - from
      invariant forall i :: 0 <= i < zeroes ==> str[i] == '1'
      invariant forall i :: from <= i < it ==> str[zeroes + i - from] == Letter(b58[i])
    {
      str := str + [ALPHABET[b58[it]]];
      it := it + 1;
    }
    ghost var d := Zeroes(zeroes) + b58[from..];
    forall i | 0 <= i < |d| ensures str[i] == Letter(d[i]) {
      if i >= zeroes { assert d[i] == b58[i - zeroes + from]; }
    }
  }

  method SkipZeroes(buf: array<int>) returns (it: nat)
    ensures it == Leading(buf[..])
  {
    it := 0;
    while it < buf.Length && buf[it] == 0
      invariant 0 <= it <= buf.Length && forall i :: 0 <= i < it ==> buf[i] == 0
    {
      it := it + 1;
    }
    LeadingIs(buf[..], it);
  }

  lemma StartBuffer(buf: seq<int>, b: nat, s: seq<int>, mul: nat)
    requires forall i :: 0 <= i < |buf| ==> buf[i] == 0
    ensures Value(buf, b) == Value(s[..0], mul)
  {
    assert buf == Zeroes(|buf|);
    ZeroesValue(|buf|, b);
  }

  /** The stripped buffer holds the digits of the renumbered sequence. */
  lemma Converted(s: seq<int>, b: nat, buf: seq<int>, c: nat)
    requires b >= 2 && c >= 2 && Below(s, b) && Below(buf, c)
    requires Value(buf, c) == Value(s[Leading(s)..], b)
    ensures Renumber(s, b, c) == Zeroes(Leading(s)) + buf[Leading(buf)..]
  {
    hide Value, Digits, Pow;
    Stripped(s, b);
    Stripped(buf, c);
    var t := s[Leading(s)..];
    Stripped(t, b);
    assert s == Zeroes(Leading(s)) + t;
    ZeroesValue(Leading(s), b);
    ValueConcat(Zeroes(Leading(s)), t, b);
  }

  /** A string as the code sees it, up to the first zero character. */
  function CString(s: string): (r: string)
    ensures |r| <= |s| && r == s[..|r|] && (forall i :: 0 <= i < |r| ==> s[i] != '\0') && (|r| < |s| ==> s[|r|] == '\0')
  {
    if s == [] || s[0] == '\0' then [] else [s[0]] + CString(s[1..])
  }

  /** Searches the alphabet for a character. */
  method FindLetter(c: char) returns (d: int)
    ensures d == DigitOf(c)
  {
    AlphabetLetters();
    hide ALPHABET;
    d := 0;
    while d < |ALPHABET|
      invariant 0 <= d <= 58 && forall e :: 0 <= e < d ==> Letter(e) != c
    {
      if ALPHABET[d] == c {
        LetterDigit(d);
        return;
      }
      d := d + 1;
    }
    return -1;
  }

  /** What the scan has established about the text: spaces, then ones, then other digits up to p. */
  ghost predicate Scanned(psz: string, first: nat, ones: nat, p: nat, digits: seq<int>) {
    first + ones <= p <= |psz| && Start(psz) == first && |digits| == p - first - ones && Below(digits, 58) &&
    (forall i :: first <= i < first + ones ==> psz[i] == '1') &&
    (first + ones < |psz| ==> psz[first + ones] != '1') &&
    (forall i :: first + ones <= i < p ==> DigitOf(psz[i]) == digits[i - first - ones])
  }

  lemma StartIs(s: string, n: nat)
    requires n <= |s| && (forall i :: 0 <= i < n ==> IsSpace(s[i])) && (n < |s| ==> !IsSpace(s[n]))
    ensures Start(s) == n
  {
  }

  lemma EndIs(s: string, n: nat)
    requires n <= |s| && (forall i :: n <= i < |s| ==> IsSpace(s[i])) && (n > 0 ==> !IsSpace(s[n - 1]))
    ensures End(s) == n
  {
  }

  lemma NoSpace(psz: string, first: nat, ones: nat, p: nat, digits: seq<int>, i: nat)
    requires Scanned(psz, first, ones, p, digits) && first <= i < p
    ensures DigitOf(psz[i]) == (Zeroes(ones) + digits)[i - first] && !IsSpace(psz[i])
  {
    var d := DigitOf(psz[i]);
    if i < first + ones { assert psz[i] == '1'; } else { assert d >= 0; LetterDigit(d); }
  }

  /** A text is accepted when only spaces follow the digits. */
  lemma Accepted(psz: string, first: nat, ones: nat, p: nat, digits: seq<int>, buf: seq<int>)
    requires Scanned(psz, first, ones, p, digits)
    requires forall i :: p <= i < |psz| ==> IsSpace(psz[i])
    requires Below(buf, 256) && Value(buf, 256) == Value(digits, 58)
    ensures Decoded(psz) == Some(Zeroes(ones) + buf[Leading(buf)..])
  {
    hide Value, Renumber, Letters, Leading, Start, End;
    var t, s := Trimmed(psz), Zeroes(ones) + digits;
    if p > first {
      NoSpace(psz, first, ones, p, digits, p - 1);
      EndIs(psz, p);
    } else {
      AllSpaces(psz);
    }
    assert t == psz[first..p];
    forall i | 0 <= i < |t| ensures DigitOf(t[i]) == s[i] {
      NoSpace(psz, first, ones, p, digits, first + i);
    }
    assert TextDigits(t) == s;
    if |digits| > 0 { assert psz[first + ones] != '1'; LetterDigit(0); }
    LeadingIs(s, ones);
    assert s[ones..] == digits;
    Converted(s, 58, buf, 256);
  }

  lemma AllSpaces(s: string)
    requires Start(s) == |s| || forall i :: Start(s) <= i < |s| ==> IsSpace(s[i])
    ensures Trimmed(s) == []
  {
  }

  /** A character outside the alphabet between two that are not spaces makes the text unacceptable. */
  lemma Refused(psz: string, i: nat, j: nat)
    requires i <= j < |psz| && !IsSpace(psz[j]) && DigitOf(psz[i]) < 0 && Start(psz) <= i
    ensures Decoded(psz) == None
  {
    hide Start, End, Renumber, TextDigits, DigitOf, Letter, IsSpace;
    assert End(psz) > j;
    assert Trimmed(psz)[i - Start(psz)] == psz[i];
  }

  method Decode(str: string) returns (ok: bool, vch: seq<int>)
    ensures ok <==> Decoded(CString(str)).Some?
    ensures ok ==> Decoded(CString(str)) == Some(vch)
  {
    hide Value, Pow, Leading, Decoded, Scanned, DigitOf, Letter, IsSpace, CString, Start;
    vch := [];
    var psz := CString(str);
    // Skip leading spaces.
    var first := 0;
    while first < |psz| && IsSpace(psz[first])
      invariant 0 <= first <= |psz| && forall i :: 0 <= i < first ==> IsSpace(psz[i])
    {
      first := first + 1;
    }
    StartIs(psz, first);
    // Skip and count leading ones.
    var zeroes := 0;
    while first + zeroes < |psz| && psz[first + zeroes] == '1'
      invariant 0 <= zeroes && first + zeroes <= |psz|
      invariant forall i :: first <= i < first + zeroes ==> psz[i] == '1'
    {
      zeroes := zeroes + 1;
    }
    var p := first + zeroes;
    var length := |psz| - p;
    var b256 := new int[length * 733 / 1000 + 1](_ => 0);
    DecodeFits(length);
    ghost var size, digits := b256.Length, [];
    StartBuffer(b256[..], 256, digits, 58);
    StartScan(psz, first, zeroes);
    while p < |psz| && !IsSpace(psz[p])
      invariant first + zeroes <= p <= |psz| && b256.Length == size && Below(b256[..], 256)
      invariant Scanned(psz, first, zeroes, p, digits) && |digits| == p - first - zeroes && Below(digits, 58)
      invariant Value(b256[..], 256) == Value(digits, 58)
    {
      var d := FindLetter(psz[p]);
      if d < 0 {
        Refused(psz, p, p);
        return false, [];
      }
      ghost var more := digits + [d];
      assert more[..|digits|] == digits && more[..|digits| + 1] == more;
      PowMono(58, |more|, length);
      Feed(b256, more, |digits|, d, 58, 256);
      ScanOne(psz, first, zeroes, p, digits, d);
      digits := more;
      p := p + 1;
    }
    // Skip trailing spaces.
    ghost var stop := p;
    while p < |psz| && IsSpace(psz[p])
      invariant stop <= p <= |psz| && forall i :: stop <= i < p ==> IsSpace(psz[i])
    {
      p := p + 1;
    }
    if p < |psz| {
      SpaceNoDigit(psz[stop]);
      Refused(psz, stop, p);
      return false, [];
    }
    var it := SkipZeroes(b256);
    Accepted(psz, first, zeroes, stop, digits, b256[..]);
    assert b256[..][it..] == b256[it..];
    return true, Zeroes(zeroes) + b256[it..];
  }

  lemma SpaceNoDigit(c: char)
    ensures IsSpace(c) ==> DigitOf(c) < 0
  {
  }

  lemma StartScan(psz: string, first: nat, ones: nat)
    requires first + ones <= |psz| && Start(psz) == first
    requires forall i :: first <= i < first + ones ==> psz[i] == '1'
    requires first + ones < |psz| ==> psz[first + ones] != '1'
    ensures Scanned(psz, first, ones, first + ones, [])
  {
  }

  lemma ScanOne(psz: string, first: nat, ones: nat, p: nat, digits: seq<int>, d: int)
    requires Scanned(psz, first, ones, p, digits) && p < |psz| && d == DigitOf(psz[p]) >= 0
    ensures Scanned(psz, first, ones, p + 1, digits + [d])
  {
  }
}
