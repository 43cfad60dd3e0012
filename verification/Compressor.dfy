/** Variable-length integers, compressed amounts, compressed scripts and outputs. */
module Compressor {
  import opened Wrappers
  import opened Utxo

  /** What was read, and what is left of the stream. */
  datatype Read<T> = Failed | Got(value: T, rest: seq<int>)

  predicate AreBytes(s: seq<int>) {
    forall i :: 0 <= i < |s| ==> 0 <= s[i] < 256
  }

  // ---------- variable-length integers ----------

  /** The bytes before the last: seven bits each, highest first, with the continuation bit. */
  function VarHead(n: nat): (s: seq<int>) {
    (if n <= 0x7F then [] else VarHead(n / 128 - 1)) + [n % 128 + 128]
  }

  /** A number as it is written.  Only the lowest seven bits of a negative one are. */
  function VarInt(n: int): (s: seq<int>) {
    (if n <= 0x7F then [] else VarHead(n / 128 - 1)) + [n % 128]
  }

  function ReadVar(s: seq<int>, acc: nat): (r: Read<nat>)
    requires AreBytes(s)
  {
    if s == [] then Failed
    else
      var n := acc * 128 + s[0] % 128;
      if s[0] >= 128 then ReadVar(s[1..], n + 1) else Got(n, s[1..])
  }

  lemma {:induction false} VarBytes(n: nat)
    ensures AreBytes(VarHead(n)) && AreBytes(VarInt(n))
  {
    if n > 0x7F { VarBytes(n / 128 - 1); }
  }

  lemma {:induction false} ReadHead(n: nat, t: seq<int>)
    requires AreBytes(t)
    ensures AreBytes(VarHead(n) + t) && ReadVar(VarHead(n) + t, 0) == ReadVar(t, n + 1)
    decreases n
  {
    hide VarHead, ReadVar;
    VarBytes(n);
    HeadStep(n);
    var m, last := n / 128 - 1, [n % 128 + 128];
    assert (last + t)[1..] == t && (last + t)[0] == n % 128 + 128;
    Groups(n / 128, n % 128);
    ReadHigh(last + t, 0);
    if n > 0x7F {
      ReadHead(m, last + t);
      ReadHigh(last + t, m + 1);
      assert VarHead(n) + t == VarHead(m) + (last + t);
    } else {
      assert VarHead(n) + t == last + t;
    }
  }

  lemma ReadHigh(s: seq<int>, acc: nat)
    requires AreBytes(s) && s != [] && s[0] >= 128
    ensures ReadVar(s, acc) == ReadVar(s[1..], acc * 128 + (s[0] - 128) + 1)
  {
  }

  /** A written number is read back, and nothing of what follows is consumed. */
  lemma ReadVarInt(n: nat, t: seq<int>)
    requires AreBytes(t)
    ensures AreBytes(VarInt(n) + t) && ReadVar(VarInt(n) + t, 0) == Got(n, t)
  {
    VarBytes(n);
    var last := [n % 128];
    assert (last + t)[1..] == t;
    if n <= 0x7F {
      assert VarInt(n) + t == last + t;
    } else {
      var m := n / 128 - 1;
      ReadHead(m, last + t);
      assert VarInt(n) + t == VarHead(m) + (last + t);
      assert (m + 1) * 128 + n % 128 == n;
    }
  }

  /** A negative number is not: only its lowest seven bits come back. */
  lemma ReadNegative(n: int, t: seq<int>)
    requires n < 0 && AreBytes(t)
    ensures AreBytes(VarInt(n) + t) && ReadVar(VarInt(n) + t, 0) == Got(n % 128, t)
  {
    assert (VarInt(n) + t)[1..] == t;
  }

  /** Every number has only one form: what was read is what would be written. */
  lemma {:induction false} VarIntOnly(s: seq<int>, head: seq<int>, acc: nat)
    requires AreBytes(s) && ReadVar(s, acc).Got?
    requires acc == 0 ==> head == []
    requires acc > 0 ==> head == VarHead(acc - 1)
    ensures head + s == VarInt(ReadVar(s, acc).value) + ReadVar(s, acc).rest
    decreases |s|
  {
    hide VarHead, VarInt, ReadVar, AreBytes;
    ReadStep(s, acc);
    var n := acc * 128 + s[0] % 128;
    HeadStep(n);
    IntStep(n);
    Groups(acc, s[0] % 128);
    assert head + s == (head + [s[0]]) + s[1..];
    if s[0] >= 128 {
      VarIntOnly(s[1..], head + [s[0]], n + 1);
    }
  }

  /** Reading fails only where the number does not end. */
  lemma {:induction false} ReadVarFails(s: seq<int>, acc: nat)
    requires AreBytes(s)
    ensures ReadVar(s, acc).Failed? <==> forall i :: 0 <= i < |s| ==> s[i] >= 128
    decreases |s|
  {
    if s != [] && s[0] >= 128 {
      ReadVarFails(s[1..], acc * 128 + s[0] % 128 + 1);
      assert s == [s[0]] + s[1..];
    }
  }

  /** The seven-bit groups of a form, highest first, as a number. */
  function GroupValue(s: seq<int>): int {
    if s == [] then 0 else 128 * GroupValue(s[..|s| - 1]) + s[|s| - 1] % 128
  }

  /** How many numbers have fewer than k bytes. */
  function Shorter(k: nat): nat {
    if k <= 1 then 0 else 128 * (Shorter(k - 1) + 1)
  }

  /** What a form means: the continuation bit is on all bytes but the last, and the groups count up from the first
      number that has no shorter form. */
  lemma VarIntValue(n: nat)
    ensures
      var s := VarInt(n);
      && s != [] && (forall i :: 0 <= i < |s| ==> (s[i] >= 128 <==> i < |s| - 1))
      && n == Shorter(|s|) + GroupValue(s)
      && n < Shorter(|s| + 1)
  {
    if n > 0x7F {
      VarHeadValue(n / 128 - 1);
      assert VarInt(n)[..|VarInt(n)| - 1] == VarHead(n / 128 - 1);
    }
  }

  lemma {:induction false} VarHeadValue(n: nat)
    ensures
      var s := VarHead(n);
      && s != [] && (forall i :: 0 <= i < |s| ==> s[i] >= 128)
      && n == Shorter(|s|) + GroupValue(s)
      && n < Shorter(|s| + 1)
  {
    hide VarHead;
    HeadStep(n);
    if n > 0x7F {
      VarHeadValue(n / 128 - 1);
      assert VarHead(n)[..|VarHead(n)| - 1] == VarHead(n / 128 - 1);
    }
  }

  /** The sizes and the forms that the format documents, except that 16511 is the last number of two bytes and that
      65535 has 0xFE in the middle. */
  lemma VarIntForms()
    ensures Shorter(2) == 128 && Shorter(3) == 16512 && Shorter(4) == 2113664
    ensures VarInt(0) == [0x00] && VarInt(1) == [0x01] && VarInt(127) == [0x7F]
    ensures VarInt(128) == [0x80, 0x00] && VarInt(255) == [0x80, 0x7F] && VarInt(256) == [0x81, 0x00]
    ensures VarInt(16383) == [0xFE, 0x7F] && VarInt(16384) == [0xFF, 0x00] && VarInt(16511) == [0xFF, 0x7F]
    ensures VarInt(65535) == [0x82, 0xFE, 0x7F] && VarInt(0x1_0000_0000) == [0x8E, 0xFE, 0xFE, 0xFF, 0x00]
  {
    hide VarHead;
    HeadStep(0);
    HeadStep(1);
    HeadStep(126);
    HeadStep(127);
    LongForms();
  }

  lemma LongForms()
    ensures VarInt(65535) == [0x82, 0xFE, 0x7F] && VarInt(0x1_0000_0000) == [0x8E, 0xFE, 0xFE, 0xFF, 0x00]
  {
    hide VarHead;
    HeadStep(2);
    HeadStep(510);
    assert VarHead(510) == [0x82, 0xFE];
    HeadStep(14);
    HeadStep(2046);
    assert VarHead(2046) == [0x8E, 0xFE];
    HeadStep(262142);
    assert VarHead(262142) == [0x8E, 0xFE, 0xFE];
    HeadStep(33554431);
    assert VarHead(33554431) == [0x8E, 0xFE, 0xFE, 0xFF];
  }

  lemma Groups(acc: nat, d: nat)
    requires d < 128
    ensures (acc * 128 + d) / 128 == acc && (acc * 128 + d) % 128 == d
    ensures acc * 128 + d <= 0x7F <==> acc == 0
  {
  }

  lemma ReadStep(s: seq<int>, acc: nat)
    requires AreBytes(s) && ReadVar(s, acc).Got?
    ensures s != [] && AreBytes(s[1..]) && 0 <= s[0] % 128 < 128 &&
      s[0] == s[0] % 128 + (if s[0] >= 128 then 128 else 0)
    ensures
      var n := acc * 128 + s[0] % 128;
      ReadVar(s, acc) == if s[0] >= 128 then ReadVar(s[1..], n + 1) else Got(n, s[1..])
  {
  }

  lemma IntStep(n: nat)
    ensures VarInt(n) == (if n <= 0x7F then [] else VarHead(n / 128 - 1)) + [n % 128]
  {
  }

  /** The reading loop. */
  method GetVarInt(s: seq<int>) returns (r: Read<nat>)
    requires AreBytes(s)
    ensures r == ReadVar(s, 0)
  {
    var n := 0;
    var i := 0;
    assert s[0..] == s;
    while i < |s|
      invariant 0 <= i <= |s| && 0 <= n && ReadVar(s[i..], n) == ReadVar(s, 0)
    {
      assert s[i..][1..] == s[i + 1..] && s[i..][0] == s[i];
      n := n * 128 + s[i] % 128;
      if s[i] >= 128 {
        n := n + 1;
      } else {
        return Got(n, s[i + 1..]);
      }
      i := i + 1;
    }
    return Failed;
  }

  /** The writing loop, which collects the bytes lowest first. */
  method WriteVarInt(n: int) returns (out: seq<int>)
    ensures out == VarInt(n)
  {
    hide Reversed, VarHead;
    var tmp := [];
    var m := n;
    while m > 0x7F
      invariant tmp == [] ==> m == n
      invariant tmp != [] ==> m >= 0 && VarInt(n) == VarHead(m) + Reversed(tmp)
      decreases m
    {
      var b := m % 128 + (if |tmp| > 0 then 128 else 0);
      ReversedAppend(tmp, b);
      HeadStep(m);
      tmp := tmp + [b];
      m := m / 128 - 1;
    }
    var b := m % 128 + (if |tmp| > 0 then 128 else 0);
    ReversedAppend(tmp, b);
    if tmp != [] { HeadStep(m); }
    tmp := tmp + [b];
    var len := |tmp|;
    out := [];
    assert tmp[..len] == tmp;
    while len > 0
      invariant 0 <= len <= |tmp| && out + Reversed(tmp[..len]) == VarInt(n)
    {
      len := len - 1;
      assert tmp[..len + 1] == tmp[..len] + [tmp[len]];
      ReversedAppend(tmp[..len], tmp[len]);
      out := out + [tmp[len]];
    }
    ReversedNone();
  }

  lemma HeadStep(m: nat)
    ensures VarHead(m) == (if m <= 0x7F then [] else VarHead(m / 128 - 1)) + [m % 128 + 128]
  {
  }

  lemma ReversedAppend(s: seq<int>, x: int)
    ensures Reversed(s + [x]) == [x] + Reversed(s) && (s == [] ==> Reversed(s) == [])
  {
    assert (s + [x])[..|s|] == s;
  }

  lemma ReversedNone()
    ensures Reversed([]) == []
  {
  }

  /** A list backwards. */
  function Reversed(s: seq<int>): (r: seq<int>) {
    if s == [] then [] else [s[|s| - 1]] + Reversed(s[..|s| - 1])
  }

  // ---------- amounts ----------

  /** A positive amount without its trailing zeroes, at most nine, and their number. */
  function Stripped(n: nat, e: nat): (r: (nat, nat))
    requires n > 0 && e <= 9
    ensures r.0 > 0 && e <= r.1 <= 9 && (r.1 < 9 ==> r.0 % 10 != 0)
    ensures n == r.0 * Tens(r.1 - e)
    decreases n
  {
    if n % 10 == 0 && e < 9 then
      var r := Stripped(n / 10, e + 1);
      TensNext(r.0, r.1 - (e + 1));
      r
    else (n, e)
  }

  function Tens(k: nat): nat { if k == 0 then 1 else 10 * Tens(k - 1) }

  lemma TensNext(x: nat, k: nat)
    ensures x * Tens(k + 1) == 10 * (x * Tens(k))
  {
  }

  function Compressed(n: nat): (x: nat) {
    if n == 0 then 0
    else
      var (m, e) := Stripped(n, 0);
      if e < 9 then 1 + (m / 10 * 9 + m % 10 - 1) * 10 + e else 1 + (m - 1) * 10 + 9
  }

  function Decompressed(x: nat): (n: nat) {
    if x == 0 then 0
    else
      var e, y := (x - 1) % 10, (x - 1) / 10;
      if e < 9 then Scale(y / 9 * 10 + y % 9 + 1, e) else Scale(y + 1, 9)
  }

  function Scale(n: nat, e: nat): nat
    decreases e
  {
    if e == 0 then n else Scale(n * 10, e - 1)
  }

  lemma {:induction false} ScaleTens(n: nat, e: nat)
    ensures Scale(n, e) == n * Tens(e)
    decreases e
  {
    if e > 0 {
      ScaleTens(n * 10, e - 1);
      TensNext(n, e - 1);
      assert (n * 10) * Tens(e - 1) == 10 * (n * Tens(e - 1));
    }
  }

  lemma {:induction false} ScaleLast(n: nat, e: nat)
    requires e > 0
    ensures Scale(n, e) == 10 * Scale(n, e - 1)
    decreases e
  {
    if e > 1 { ScaleLast(n * 10, e - 1); }
  }

  lemma StrippedStep(x: nat, e: nat)
    requires x > 0 && e < 9
    ensures Stripped(10 * x, e) == Stripped(x, e + 1)
  {
  }

  lemma {:induction false} StrippedScale(m: nat, k: nat, e: nat)
    requires m > 0 && k + e <= 9 && (k + e < 9 ==> m % 10 != 0)
    ensures Scale(m, k) > 0 && Stripped(Scale(m, k), e) == (m, k + e)
    decreases k
  {
    if k > 0 {
      hide Scale, Stripped;
      StrippedScale(m, k - 1, e + 1);
      ScaleLast(m, k);
      StrippedStep(Scale(m, k - 1), e);
    }
  }

  /** Compression is one-to-one ... */
  lemma DecompressCompressed(n: nat)
    ensures Decompressed(Compressed(n)) == n
  {
    hide Stripped, Scale, Tens;
    if n > 0 {
      var (m, e) := Stripped(n, 0);
      ScaleTens(m, e);
      assert Scale(m, e) == n;
      var y := if e < 9 then m / 10 * 9 + m % 10 - 1 else m - 1;
      Fields(y, e);
      if e < 9 { Ninths(m / 10, m % 10 - 1); }
    }
  }

  lemma Fields(y: nat, e: nat)
    requires e < 10
    ensures (y * 10 + e) / 10 == y && (y * 10 + e) % 10 == e
  {
  }

  lemma Ninths(q: nat, d: nat)
    requires d < 9
    ensures (q * 9 + d) / 9 == q && (q * 9 + d) % 9 == d
  {
  }

  /** ... and onto. */
  lemma CompressDecompressed(x: nat)
    ensures Compressed(Decompressed(x)) == x
  {
    if x > 0 {
      var e, y := (x - 1) % 10, (x - 1) / 10;
      var m := if e < 9 then y / 9 * 10 + y % 9 + 1 else y + 1;
      if e < 9 { Fields(y / 9, y % 9 + 1); }
      StrippedScale(m, e, 0);
    }
  }

  /** The code of an amount with e zeroes at the end, a last digit d before them, and the number n before that. */
  lemma CompressedDigits(n: nat, d: nat, e: nat)
    requires 1 <= d <= 9 && e <= 8
    ensures Compressed((10 * n + d) * Tens(e)) == 1 + 10 * (9 * n + d - 1) + e
    ensures Decompressed(1 + 10 * (9 * n + d - 1) + e) == (10 * n + d) * Tens(e)
  {
    var m := 10 * n + d;
    assert m / 10 == n && m % 10 == d;
    StrippedScale(m, e, 0);
    ScaleTens(m, e);
    DecompressCompressed(m * Tens(e));
  }

  /** The code of a multiple of 10^9. */
  lemma CompressedBillions(n: nat)
    requires n >= 1
    ensures Compressed(n * 1_000_000_000) == 10 * n && Decompressed(10 * n) == n * 1_000_000_000
  {
    StrippedScale(n, 9, 0);
    ScaleTens(n, 9);
    TensAre();
    DecompressCompressed(n * 1_000_000_000);
  }

  lemma TensAre()
    ensures Tens(0) == 1 && Tens(1) == 10 && Tens(6) == 1_000_000 && Tens(8) == 100_000_000 && Tens(9) == 1_000_000_000
  {
    assert Tens(2) == 100 && Tens(3) == 1000 && Tens(4) == 10_000 && Tens(5) == 100_000;
    assert Tens(7) == 10_000_000;
  }

  /** Zero, one unit, a cent, a coin, fifty coins, and all coins. */
  lemma CompressedPairs()
    ensures Compressed(0) == 0 && Compressed(1) == 1 && Compressed(1_000_000) == 7 && Compressed(COIN) == 9
    ensures Compressed(50 * COIN) == 50 && Compressed(21_000_000 * COIN) == 21_000_000
  {
    TensAre();
    CompressedDigits(0, 1, 0);
    CompressedDigits(0, 1, 6);
    CompressedDigits(0, 1, 8);
    CompressedBillions(5);
    CompressedBillions(2_100_000);
  }

  const COIN := 100_000_000
  const MAX_MONEY := 21_000_000 * COIN

  /** The compressed form of a valid amount, the largest number on the way, fits in 64 bits. */
  lemma AmountsFit(n: nat)
    requires n <= MAX_MONEY
    ensures Compressed(n) <= 9 * n + 10 < 0x1_0000_0000_0000_0000
  {
    if n > 0 {
      var (m, e) := Stripped(n, 0);
      TensPositive(e);
      assert m * Tens(e) >= m;
    }
  }

  lemma {:induction false} TensPositive(k: nat)
    ensures Tens(k) >= 1
  {
    if k > 0 { TensPositive(k - 1); }
  }

  method CompressAmount(amount: nat) returns (x: nat)
    ensures x == Compressed(amount)
  {
    if amount == 0 {
      return 0;
    }
    var n, e := amount, 0;
    while n % 10 == 0 && e < 9
      invariant n > 0 && 0 <= e <= 9 && Stripped(n, e) == Stripped(amount, 0)
    {
      n := n / 10;
      e := e + 1;
    }
    if e < 9 {
      var d := n % 10;
      assert 1 <= d <= 9;
      n := n / 10;
      return 1 + (n * 9 + d - 1) * 10 + e;
    } else {
      return 1 + (n - 1) * 10 + 9;
    }
  }

  method DecompressAmount(compressed: nat) returns (n: nat)
    ensures n == Decompressed(compressed)
  {
    if compressed == 0 {
      return 0;
    }
    var x := compressed - 1;
    var e := x % 10;
    x := x / 10;
    n := 0;
    if e < 9 {
      var d := x % 9 + 1;
      x := x / 9;
      n := x * 10 + d;
    } else {
      n := x + 1;
    }
    while e != 0
      invariant 0 <= e && Scale(n, e) == Decompressed(compressed)
    {
      n := n * 10;
      e := e - 1;
    }
  }

  // ---------- scripts ----------

  const OP_DUP := 0x76
  const OP_EQUAL := 0x87
  const OP_EQUALVERIFY := 0x88
  const OP_HASH160 := 0xa9
  const OP_CHECKSIG := 0xac

  /** What the elliptic-curve library is asked: whether a 65-byte key is on the curve, and to restore one
      from its 33-byte form. */
  datatype Curve = Curve(valid: seq<int> -> bool, restore: seq<int> -> Option<seq<int>>) {
    /** Restoring undoes the compression of a valid key. */
    ghost predicate Lawful() {
      (forall key :: |key| == 65 && key[0] == 4 && valid(key) ==>
        restore([2 + key[64] % 2] + key[1..33]) == Some(key)) &&
      (forall short :: restore(short).Some? ==> |restore(short).value| == 65 && AreBytes(restore(short).value))
    }
  }

  predicate IsToKeyID(s: seq<int>) {
    |s| == 25 && s[0] == OP_DUP && s[1] == OP_HASH160 && s[2] == 20 && s[23] == OP_EQUALVERIFY && s[24] == OP_CHECKSIG
  }

  predicate IsToScriptID(s: seq<int>) {
    |s| == 23 && s[0] == OP_HASH160 && s[1] == 20 && s[22] == OP_EQUAL
  }

  /** The public key of a script that pays to one. */
  function PubKeyOf(curve: Curve, s: seq<int>): Option<seq<int>> {
    if |s| == 35 && s[0] == 33 && s[34] == OP_CHECKSIG && (s[1] == 2 || s[1] == 3) then Some(s[1..34])
    else if |s| == 67 && s[0] == 65 && s[66] == OP_CHECKSIG && s[1] == 4 && curve.valid(s[1..66]) then Some(s[1..66])
    else None
  }

  /** The short form of a script, if it has one. */
  function ShortScript(curve: Curve, s: seq<int>): Option<seq<int>> {
    if IsToKeyID(s) then Some([0] + s[3..23])
    else if IsToScriptID(s) then Some([1] + s[2..22])
    else match PubKeyOf(curve, s)
      case Some(key) => Some([if key[0] == 4 then 4 + key[64] % 2 else key[0]] + key[1..33])
      case None => None
  }

  function SpecialSize(n: nat): nat { if n <= 1 then 20 else if n <= 5 then 32 else 0 }

  /** The script for a short form; a key that cannot be restored leaves the script as it was. */
  function LongScript(curve: Curve, n: nat, payload: seq<int>, was: seq<int>): seq<int>
    requires n < 6 && |payload| == SpecialSize(n)
  {
    if n == 0 then [OP_DUP, OP_HASH160, 20] + payload + [OP_EQUALVERIFY, OP_CHECKSIG]
    else if n == 1 then [OP_HASH160, 20] + payload + [OP_EQUAL]
    else if n <= 3 then [33, n] + payload + [OP_CHECKSIG]
    else match curve.restore([n - 2] + payload)
      case Some(key) => [65] + key + [OP_CHECKSIG]
      case None => was
  }

  function Script(curve: Curve, s: seq<int>): seq<int> {
    match ShortScript(curve, s)
      case Some(short) => short
      case None => VarInt(|s| + 6) + s
  }

  /** Reads a script into one that was empty. */
  function ReadScript(curve: Curve, s: seq<int>): Read<seq<int>>
    requires AreBytes(s)
  {
    match ReadVar(s, 0)
      case Failed => Failed
      case Got(n, rest) =>
        var size := if n < 6 then SpecialSize(n) else n - 6;
        if |rest| < size then Failed
        else Got(if n < 6 then LongScript(curve, n, rest[..size], []) else rest[..size], rest[size..])
  }

  /** A short form has the size its first byte tells, and stands for the script. */
  ghost predicate ShortFor(curve: Curve, short: seq<int>, s: seq<int>) {
    AreBytes(short) && |short| > 0 && short[0] < 6 && |short| == 1 + SpecialSize(short[0]) &&
    LongScript(curve, short[0], short[1..], []) == s
  }

  lemma ShortKeyID(curve: Curve, s: seq<int>)
    requires AreBytes(s) && IsToKeyID(s)
    ensures ShortFor(curve, [0] + s[3..23], s)
  {
    assert ([0] + s[3..23])[1..] == s[3..23];
    assert s == s[..3] + s[3..23] + s[23..];
  }

  lemma ShortScriptID(curve: Curve, s: seq<int>)
    requires AreBytes(s) && IsToScriptID(s)
    ensures ShortFor(curve, [1] + s[2..22], s)
  {
    assert ([1] + s[2..22])[1..] == s[2..22];
    assert s == s[..2] + s[2..22] + s[22..];
  }

  lemma ShortCompressedKey(curve: Curve, s: seq<int>)
    requires AreBytes(s) && |s| == 35 && s[0] == 33 && s[34] == OP_CHECKSIG && (s[1] == 2 || s[1] == 3)
    ensures ShortFor(curve, [s[1]] + s[1..34][1..33], s)
  {
    assert s[1..34][1..33] == s[2..34];
    assert ([s[1]] + s[2..34])[1..] == s[2..34];
    assert s == s[..2] + s[2..34] + s[34..];
  }

  lemma ShortFullKey(curve: Curve, s: seq<int>)
    requires curve.Lawful() && AreBytes(s)
    requires |s| == 67 && s[0] == 65 && s[66] == OP_CHECKSIG && s[1] == 4 && curve.valid(s[1..66])
    ensures ShortFor(curve, [4 + s[1..66][64] % 2] + s[1..66][1..33], s)
  {
    var key := s[1..66];
    var first := 4 + key[64] % 2;
    assert forall i :: 0 <= i < 32 ==> key[1..33][i] == s[i + 2];
    assert ([first] + key[1..33])[1..] == key[1..33];
    assert curve.restore([2 + key[64] % 2] + key[1..33]) == Some(key);
    assert s == s[..1] + key + s[66..];
  }

  lemma ShortForm(curve: Curve, s: seq<int>)
    requires curve.Lawful() && AreBytes(s) && ShortScript(curve, s).Some?
    ensures ShortFor(curve, ShortScript(curve, s).value, s)
  {
    hide ShortFor;
    if IsToKeyID(s) {
      ShortKeyID(curve, s);
    } else if IsToScriptID(s) {
      ShortScriptID(curve, s);
    } else if |s| == 35 {
      ShortCompressedKey(curve, s);
    } else {
      ShortFullKey(curve, s);
    }
  }

  /** Which scripts have a short form: payments to a key hash, to a script hash, to a compressed key, and to a full
      key that is on the curve. */
  lemma ShortIff(curve: Curve, s: seq<int>)
    ensures ShortScript(curve, s).Some? <==>
      || (|s| == 25 && s[..3] == [0x76, 0xa9, 0x14] && s[23..] == [0x88, 0xac])
      || (|s| == 23 && s[..2] == [0xa9, 0x14] && s[22..] == [0x87])
      || (|s| == 35 && (s[..2] == [0x21, 2] || s[..2] == [0x21, 3]) && s[34..] == [0xac])
      || (|s| == 67 && s[..2] == [0x41, 4] && s[66..] == [0xac] && curve.valid(s[1..66]))
  {
  }

  /** The short forms: the kind of payment, and then the hash or the first coordinate of the key. */
  lemma ShortTemplates(curve: Curve, hash: seq<int>, x: seq<int>, y: seq<int>)
    requires |hash| == 20 && |x| == |y| == 32
    ensures ShortScript(curve, [0x76, 0xa9, 0x14] + hash + [0x88, 0xac]) == Some([0] + hash)
    ensures ShortScript(curve, [0xa9, 0x14] + hash + [0x87]) == Some([1] + hash)
    ensures ShortScript(curve, [0x21, 2] + x + [0xac]) == Some([2] + x)
    ensures ShortScript(curve, [0x21, 3] + x + [0xac]) == Some([3] + x)
    ensures curve.valid([4] + x + y) ==>
      ShortScript(curve, [0x41, 4] + x + y + [0xac]) == Some([4 + y[31] % 2] + x)
  {
    var keyId, scriptId := [0x76, 0xa9, 0x14] + hash + [0x88, 0xac], [0xa9, 0x14] + hash + [0x87];
    assert keyId[3..23] == hash && scriptId[2..22] == hash;
    ShortKeyTemplate(curve, 2, x);
    ShortKeyTemplate(curve, 3, x);
    if curve.valid([4] + x + y) { ShortFullTemplate(curve, x, y); }
  }

  lemma ShortKeyTemplate(curve: Curve, p: int, x: seq<int>)
    requires (p == 2 || p == 3) && |x| == 32
    ensures ShortScript(curve, [0x21, p] + x + [0xac]) == Some([p] + x)
  {
    var s := [0x21, p] + x + [0xac];
    assert s[1..34] == [p] + x && s[1..34][1..33] == x;
  }

  lemma ShortFullTemplate(curve: Curve, x: seq<int>, y: seq<int>)
    requires |x| == |y| == 32 && curve.valid([4] + x + y)
    ensures ShortScript(curve, [0x41, 4] + x + y + [0xac]) == Some([4 + y[31] % 2] + x)
  {
    var s := [0x41, 4] + x + y + [0xac];
    assert s[1..66] == [4] + x + y && s[1..66][1..33] == x && s[1..66][64] == y[31];
  }

  /** A script is read back as it was written. */
  lemma ReadWrittenScript(curve: Curve, s: seq<int>, t: seq<int>)
    requires curve.Lawful() && AreBytes(s) && AreBytes(t)
    ensures AreBytes(Script(curve, s) + t) && ReadScript(curve, Script(curve, s) + t) == Got(s, t)
  {
    hide LongScript, ReadVar, VarInt, ShortScript, ReadScript;
    if ShortScript(curve, s).Some? { ReadShort(curve, s, t); } else { ReadLong(curve, s, t); }
  }

  lemma ReadShort(curve: Curve, s: seq<int>, t: seq<int>)
    requires curve.Lawful() && AreBytes(s) && AreBytes(t) && ShortScript(curve, s).Some?
    ensures AreBytes(Script(curve, s) + t) && ReadScript(curve, Script(curve, s) + t) == Got(s, t)
  {
    hide LongScript, ReadVar, VarInt, ShortScript, Curve.Lawful;
    var short := ShortScript(curve, s).value;
    ShortForm(curve, s);
    var all := short + t;
    OneByte(all);
    assert all[1..] == short[1..] + t;
    assert all[1..][..SpecialSize(short[0])] == short[1..];
    assert all[1..][SpecialSize(short[0])..] == t;
  }

  lemma ReadLong(curve: Curve, s: seq<int>, t: seq<int>)
    requires AreBytes(s) && AreBytes(t) && ShortScript(curve, s).None?
    ensures AreBytes(Script(curve, s) + t) && ReadScript(curve, Script(curve, s) + t) == Got(s, t)
  {
    hide LongScript, ReadVar, VarInt, ShortScript;
    VarBytes(|s| + 6);
    ReadVarInt(|s| + 6, s + t);
    assert Script(curve, s) + t == VarInt(|s| + 6) + (s + t);
    assert (s + t)[..|s|] == s && (s + t)[|s|..] == t;
  }

  lemma OneByte(s: seq<int>)
    requires AreBytes(s) && s != [] && s[0] < 128
    ensures ReadVar(s, 0) == Got(s[0], s[1..])
  {
  }

  // ---------- outputs ----------

  function Output(curve: Curve, o: TxOut): seq<int>
    requires o.nValue >= 0
  {
    VarInt(Compressed(o.nValue)) + Script(curve, o.script)
  }

  function ReadOutput(curve: Curve, s: seq<int>): (r: Read<TxOut>)
    requires AreBytes(s)
  {
    match ReadVar(s, 0)
      case Failed => Failed
      case Got(x, rest) =>
        (ReadVarRest(s, 0);
        match ReadScript(curve, rest)
        case Failed => Failed
        case Got(script, rest') => Got(TxOut(Decompressed(x), script), rest'))
  }

  lemma {:induction false} ReadVarRest(s: seq<int>, acc: nat)
    requires AreBytes(s)
    ensures ReadVar(s, acc).Got? ==> AreBytes(ReadVar(s, acc).rest) && |ReadVar(s, acc).rest| < |s|
    decreases |s|
  {
    if s != [] {
      var n := acc * 128 + s[0] % 128;
      if s[0] >= 128 { ReadVarRest(s[1..], n + 1); }
    }
  }

  lemma ReadWrittenOutput(curve: Curve, o: TxOut, t: seq<int>)
    requires curve.Lawful() && AreBytes(o.script) && AreBytes(t) && o.nValue >= 0
    ensures AreBytes(Output(curve, o) + t) && ReadOutput(curve, Output(curve, o) + t) == Got(o, t)
  {
    hide ReadVar, VarInt, ReadScript, Script, Compressed, Decompressed;
    ReadWrittenScript(curve, o.script, t);
    ReadVarInt(Compressed(o.nValue), Script(curve, o.script) + t);
    assert Output(curve, o) + t == VarInt(Compressed(o.nValue)) + (Script(curve, o.script) + t);
    DecompressCompressed(o.nValue);
  }
}
