/**
 Comparing integers as strings without printing them.
 */
module LexicographicInts {
  import opened Words
  import opened Decimals
  import opened Indices

  // ---- string order ----

  /** s comes before t in the order of character codes, or is t. */
  predicate LexLE(s: string, t: string) {
    s == [] || (t != [] && (s[0] < t[0] || (s[0] == t[0] && LexLE(s[1..], t[1..]))))
  }

  /** The leading digit and the rest. */
  lemma {:induction false} DecSplit(s: string, m: nat)
    requires m <= |s|
    ensures DecVal(s) == DecVal(s[..m]) * Pow(10, |s| - m) + DecVal(s[m..])
    decreases |s|
  {
    if m == |s| {
      assert s[..m] == s && s[m..] == [];
    } else {
      var n := |s| - 1;
      var t := s[m..];
      DecSplit(s[..n], m);
      assert s[..n][..m] == s[..m] && s[..n][m..] == t[..n - m] && t[n - m] == s[n];
      assert DecVal(t) == 10 * DecVal(t[..n - m]) + Digit(s[n]);
      TenMore(DecVal(s[..m]), n - m);
    }
  }

  lemma {:induction false} TenMore(v: nat, j: nat)
    ensures v * Pow(10, j + 1) == 10 * (v * Pow(10, j))
  {
  }

  lemma {:induction false} LeadingDigit(a: nat, b: nat, p: nat, x: nat, y: nat)
    requires x < p && y < p
    ensures a * p + x <= b * p + y <==> a < b || (a == b && x <= y)
    ensures a * p + x == b * p + y <==> a == b && x == y
  {
    if a < b {
      MulMono(a + 1, b, p);
      MulDistrib(p, a, 1);
    } else if a > b {
      MulMono(b + 1, a, p);
      MulDistrib(p, b, 1);
    }
  }

  lemma {:induction false} FirstDigit(s: string)
    requires s != []
    ensures DecVal(s) == Digit(s[0]) * Pow(10, |s| - 1) + DecVal(s[1..]) && DecVal(s[1..]) < Pow(10, |s| - 1)
  {
    DecSplit(s, 1);
    DecOne(s[..1]);
    DecBounds(s[1..]);
  }

  /** Digit strings of one length are ordered as numbers. */
  lemma {:induction false} SameLengthOrder(s: string, t: string)
    requires IsDigits(s) && IsDigits(t) && |s| == |t|
    ensures LexLE(s, t) <==> DecVal(s) <= DecVal(t)
    ensures s == t <==> DecVal(s) == DecVal(t)
    decreases |s|
  {
    hide Pow, DecVal;
    if s != [] {
      var a, b, p, x, y := Digit(s[0]), Digit(t[0]), Pow(10, |s| - 1), DecVal(s[1..]), DecVal(t[1..]);
      FirstDigit(s);
      FirstDigit(t);
      SameLengthOrder(s[1..], t[1..]);
      LeadingDigit(a, b, p, x, y);
      assert s[0] < t[0] <==> a < b;
      assert s[0] == t[0] <==> a == b;
      assert s == [s[0]] + s[1..] && t == [t[0]] + t[1..];
    }
  }

  /** A longer string on the left is compared by its prefix, and a prefix comes first. */
  lemma {:induction false} LongerOnLeft(s: string, t: string)
    requires |s| > |t|
    ensures LexLE(s, t) <==> LexLE(s[..|t|], t) && s[..|t|] != t
    decreases |t|
  {
    if t != [] {
      LongerOnLeft(s[1..], t[1..]);
      assert s[1..][..|t| - 1] == s[..|t|][1..];
      assert s[..|t|] == t <==> s[0] == t[0] && s[1..][..|t| - 1] == t[1..] by {
        assert s[..|t|] == [s[0]] + s[..|t|][1..] && t == [t[0]] + t[1..];
      }
    }
  }

  lemma {:induction false} LongerOnRight(s: string, t: string)
    requires |s| < |t|
    ensures LexLE(s, t) <==> LexLE(s, t[..|s|])
    decreases |s|
  {
    if s != [] {
      LongerOnRight(s[1..], t[1..]);
      assert t[1..][..|s| - 1] == t[..|s|][1..];
    }
  }

  /** Dropping k digits compares with 10^k times the other number. */
  lemma {:induction false} PrefixOrder(p: nat, r: nat, b: nat, ten: nat)
    requires r < ten
    ensures p * ten + r < b * ten <==> p < b
    ensures b * ten <= p * ten + r <==> b <= p
  {
    if p < b {
      MulMono(p + 1, b, ten);
      MulDistrib(ten, p, 1);
    } else {
      MulMono(b, p, ten);
    }
  }

  /** Digit strings of different lengths. */
  lemma {:induction false} LengthOrder(s: string, t: string)
    requires IsDigits(s) && IsDigits(t)
    ensures |s| > |t| ==> (LexLE(s, t) <==> DecVal(s) < DecVal(t) * Pow(10, |s| - |t|))
    ensures |s| < |t| ==> (LexLE(s, t) <==> DecVal(s) * Pow(10, |t| - |s|) <= DecVal(t))
  {
    if |s| > |t| {
      var m := |t|;
      LongerOnLeft(s, t);
      DecSplit(s, m);
      DecBounds(s[m..]);
      SameLengthOrder(s[..m], t);
      PrefixOrder(DecVal(s[..m]), DecVal(s[m..]), DecVal(t), Pow(10, |s| - m));
    } else if |s| < |t| {
      var m := |s|;
      LongerOnRight(s, t);
      DecSplit(t, m);
      DecBounds(t[m..]);
      SameLengthOrder(s, t[..m]);
      PrefixOrder(DecVal(t[..m]), DecVal(t[m..]), DecVal(s), Pow(10, |t| - m));
    }
  }

  // ---- counting digits ----

  /** The table of powers; its last entry is not the next one. */
  const POWERS: seq<nat> := [1, 10, 100, 1000, 10000, 100000, 1000000, 10000000, 100000000, 1000000000, 1000000000000]

  /** The least exponent of a power of two that is at least n, from i on. */
  function CeilingLog2(n: nat, i: nat, power: nat): (log: nat)
    requires 0 < power && i <= 32 && n <= 0xFFFF_FFFF
    decreases 32 - i
  {
    if power >= n || i == 32 then i else CeilingLog2(n, i + 1, 2 * power)
  }

  lemma {:induction false} CeilingBounds(n: nat, i: nat)
    requires i <= 32 && n <= 0xFFFF_FFFF && (i > 0 ==> Pow(2, i - 1) < n)
    ensures Pow(2, i) > 0
    ensures var log := CeilingLog2(n, i, Pow(2, i));
      i <= log <= 32 && n <= Pow(2, log) && (log > 0 ==> log > i || i > 0) && (log > 0 ==> Pow(2, log - 1) < n)
    decreases 32 - i
  {
    PowPos(2, i);
    Pow32();
    if Pow(2, i) < n && i < 32 {
      CeilingBounds(n, i + 1);
    }
  }

  /** The number of decimal digits, from a table and the binary logarithm; none for zero. */
  function NumDigits(n: nat): nat
    requires n <= 0xFFFF_FFFF
  {
    var log := CeilingLog2(n, 0, 1);
    var t := log * 1233 / 4096;
    if t < |POWERS| then t - (if n < POWERS[t] then 1 else 0) + 1 else 0
  }

  ghost predicate HasDigits(n: nat, d: nat) {
    if n == 0 then d == 0 else d > 0 && Pow(10, d - 1) <= n < Pow(10, d)
  }

  /** The powers of two and of ten that enclose each other. */
  lemma {:induction false} LogTable(log: nat, n: nat)
    requires log <= 32 && n <= Pow(2, log) && (log > 0 ==> Pow(2, log - 1) < n)
    ensures var t := log * 1233 / 4096;
      t <= 9 && POWERS[t] == Pow(10, t) && n < 10 * POWERS[t] == Pow(10, t + 1)
      && (t > 0 ==> POWERS[t - 1] < n && POWERS[t - 1] == Pow(10, t - 1))
  {
    TenPowers();
    if log <= 10 {
      LowLogs(log);
    } else if log <= 21 {
      MiddleLogs(log);
    } else {
      HighLogs(log);
    }
  }

  lemma {:induction false} TenPowers()
    ensures forall t :: 0 <= t <= 9 ==> POWERS[t] == Pow(10, t)
  {
    assert Pow(10, 0) == 1 && Pow(10, 1) == 10 && Pow(10, 2) == 100 && Pow(10, 3) == 1000 && Pow(10, 4) == 10000;
    assert Pow(10, 5) == 100000 && Pow(10, 6) == 1000000 && Pow(10, 7) == 10000000;
    assert Pow(10, 8) == 100000000 && Pow(10, 9) == 1000000000;
  }

  /** Each power of two between its power of ten and the next. */
  ghost predicate Enclosed(log: nat)
    requires log <= 32
  {
    var t := log * 1233 / 4096;
    t <= 9 && Pow(2, log) < 10 * POWERS[t] && (t > 0 ==> log > 0 && POWERS[t - 1] <= Pow(2, log - 1))
  }

  lemma {:induction false} LowLogs(log: nat)
    requires log <= 10
    ensures Enclosed(log)
  {
    assert Pow(2, 0) == 1 && Pow(2, 1) == 2 && Pow(2, 2) == 4 && Pow(2, 3) == 8 && Pow(2, 4) == 16 && Pow(2, 5) == 32;
    assert Pow(2, 6) == 64 && Pow(2, 7) == 128 && Pow(2, 8) == 256 && Pow(2, 9) == 512 && Pow(2, 10) == 1024;
  }

  lemma {:induction false} MiddleLogs(log: nat)
    requires 11 <= log <= 21
    ensures Enclosed(log)
  {
    assert Pow(2, 10) == 1024 && Pow(2, 11) == 2048 && Pow(2, 12) == 4096 && Pow(2, 13) == 8192 && Pow(2, 14) == 16384;
    assert Pow(2, 15) == 32768 && Pow(2, 16) == 65536 && Pow(2, 17) == 131072 && Pow(2, 18) == 262144;
    assert Pow(2, 19) == 524288 && Pow(2, 20) == 1048576 && Pow(2, 21) == 2097152;
  }

  lemma {:induction false} HighLogs(log: nat)
    requires 22 <= log <= 32
    ensures Enclosed(log)
  {
    assert Pow(2, 10) == 1024;
    PowAdd(2, 10, 10);
    assert Pow(2, 20) == 1048576;
    assert Pow(2, 21) == 2097152 && Pow(2, 22) == 4194304 && Pow(2, 23) == 8388608 && Pow(2, 24) == 16777216;
    assert Pow(2, 25) == 33554432 && Pow(2, 26) == 67108864 && Pow(2, 27) == 134217728 && Pow(2, 28) == 268435456;
    assert Pow(2, 29) == 536870912 && Pow(2, 30) == 1073741824 && Pow(2, 31) == 2147483648 && Pow(2, 32) == 4294967296;
  }

  /** The table gives the number of digits, and its index is in range. */
  lemma {:induction false} NumDigitsCounts(n: nat)
    requires n <= 0xFFFF_FFFF
    ensures HasDigits(n, NumDigits(n)) && NumDigits(n) <= 10
  {
    hide Pow, CeilingLog2;
    PowZero();
    CeilingBounds(n, 0);
    var log := CeilingLog2(n, 0, 1);
    LogTable(log, n);
  }

  lemma {:induction false} PowZero()
    ensures Pow(2, 0) == 1 && Pow(10, 0) == 1
  {
  }

  /** The decimal of a positive number has that many characters. */
  lemma {:induction false} DigitsOfDecimal(n: nat, d: nat)
    requires n > 0 && HasDigits(n, d)
    ensures |ToDecimal(n)| == d
  {
    var s := ToDecimal(n);
    DecimalOfNumber(n);
    DecBounds(s);
    if |s| < d {
      PowMono(10, |s|, d - 1);
    } else if |s| > d {
      PowMono(10, d, |s| - 1);
    }
  }

  // ---- the comparator ----

  /** The two's complement of a negative 32-bit integer, as an unsigned one. */
  function NegateNegative(i: int): (u: nat)
    requires -0x8000_0000 <= i < 0
    ensures u == -i
  {
    (0xFFFF_FFFF - (i + 0x1_0000_0000) + 1) % 0x1_0000_0000
  }

  ghost predicate IsInt32(i: int) {
    -0x8000_0000 <= i <= 0x7FFF_FFFF
  }

  /** Comparing magnitudes as strings, by their numbers of digits. */
  function CompareByDigits(a: nat, b: nat, da: nat, db: nat): bool {
    if da == db then a <= b
    else if da > db then da - db < |POWERS| && a < b * POWERS[da - db]
    else db - da < |POWERS| && a * POWERS[db - da] <= b
  }

  function CompareMagnitudes(a: nat, b: nat): bool
    requires a <= 0x8000_0000 && b <= 0x8000_0000
  {
    CompareByDigits(a, b, NumDigits(a), NumDigits(b))
  }

  function CompareLexicographicInt32(a: int, b: int): bool
    requires -0x8000_0000 <= a <= 0x7FFF_FFFF && -0x8000_0000 <= b <= 0x7FFF_FFFF
  {
    if a == b then true
    else if a < 0 && b >= 0 then true
    else if a >= 0 && b < 0 then false
    else if a >= 0 then CompareMagnitudes(a, b)
    else CompareMagnitudes(NegateNegative(a), NegateNegative(b))
  }

  lemma {:induction false} MagnitudesAsStrings(a: nat, b: nat)
    requires a <= 0x8000_0000 && b <= 0x8000_0000 && a != b
    ensures CompareMagnitudes(a, b) == LexLE(ToDecimal(a), ToDecimal(b))
  {
    NumDigitsCounts(a);
    NumDigitsCounts(b);
    DigitsAsStrings(a, b, NumDigits(a), NumDigits(b));
  }

  /** The differences of the numbers of digits are in the range of the table. */
  lemma {:induction false} DigitsAsStrings(a: nat, b: nat, da: nat, db: nat)
    requires HasDigits(a, da) && HasDigits(b, db) && da <= 10 && db <= 10 && a != b
    ensures CompareByDigits(a, b, da, db) == LexLE(ToDecimal(a), ToDecimal(b))
    ensures da < db + |POWERS| && db < da + |POWERS|
  {
    if a == 0 || b == 0 {
      DecimalOfNumber(a);
      DecimalOfNumber(b);
      assert ToDecimal(a)[0] != ToDecimal(b)[0];
    } else {
      DigitsOfDecimal(a, da);
      DigitsOfDecimal(b, db);
      PositiveAsStrings(a, b, da, db);
    }
  }

  lemma {:induction false} PositiveAsStrings(a: nat, b: nat, da: nat, db: nat)
    requires da == |ToDecimal(a)| <= 10 && db == |ToDecimal(b)| <= 10
    ensures da == db ==> (LexLE(ToDecimal(a), ToDecimal(b)) <==> a <= b)
    ensures da > db ==> (LexLE(ToDecimal(a), ToDecimal(b)) <==> a < b * POWERS[da - db])
    ensures da < db ==> (LexLE(ToDecimal(a), ToDecimal(b)) <==> a * POWERS[db - da] <= b)
  {
    var s, t := ToDecimal(a), ToDecimal(b);
    DecimalOfNumber(a);
    DecimalOfNumber(b);
    TenPowers();
    if da == db {
      SameLengthOrder(s, t);
    } else {
      LengthOrder(s, t);
    }
  }

  /** The comparator orders all pairs of 32-bit integers as their decimal strings. */
  lemma {:induction false} ComparesAsStrings(a: int, b: int)
    requires IsInt32(a) && IsInt32(b)
    ensures CompareLexicographicInt32(a, b) == LexLE(IntString(a), IntString(b))
  {
    if a == b {
      Reflexive(IntString(a));
    } else if a < 0 && b < 0 {
      MagnitudesAsStrings(-a, -b);
      assert IntString(a)[1..] == ToDecimal(-a) && IntString(b)[1..] == ToDecimal(-b);
    } else if a >= 0 && b >= 0 {
      MagnitudesAsStrings(a, b);
    }
  }

  lemma {:induction false} Reflexive(s: string)
    ensures LexLE(s, s)
  {
    if s != [] {
      Reflexive(s[1..]);
    }
  }
}
