/**
 The comparison at the heart of decimal to double conversion: whether an
 approximation is within half a unit in the last place of the decimal, exactly,
 in big numbers.
 */
module Strtod {
  import opened Words
  import opened Bigints
  import opened Subtraction
  import opened PowersOfFive
  import opened Doubles
  import opened Decimals
  import opened RoundingInterval
  import opened ShortestDigits
  import opened Scaling
  import opened DoubleRounding

  /** The exponent of half a unit in the last place of the double held in w0, which is scale places too high. */
  function HalfUlp(w0: Word, scale: nat): int {
    (if Exponent(w0) - scale < -1074 then -1074 else Exponent(w0) - scale) - 1
  }

  // ---- the error of an approximation ----

  /** The approximation f * 2^e and the decimal bd * 10^q, times 2^m and a power of ten. */
  ghost function Approximation(f: nat, e: int, q: int, m: int): nat
    requires e + m >= 0
  {
    f * Pow(2, e + m) * Pow(10, Pos(-q))
  }

  ghost function Exactly(bd: nat, q: int, m: nat): nat {
    bd * Pow(10, Pos(q)) * Pow(2, m)
  }

  /** 2^h, on the same scale. */
  ghost function HalfUnit(h: int, q: int, m: int): nat
    requires h + m >= 0
  {
    Pow(2, h + m) * Pow(10, Pos(-q))
  }

  /** |f * 2^e - bd * 10^q| - 2^h, on that scale. */
  ghost function Excess(f: nat, e: int, bd: nat, q: int, h: int, m: nat): int
    requires e + m >= 0 && h + m >= 0
  {
    Distance(Approximation(f, e, q, m), Exactly(bd, q, m)) - HalfUnit(h, q, m)
  }

  // ---- signs ----

  ghost function Sign(x: int): int {
    if x < 0 then -1 else if x == 0 then 0 else 1
  }

  /** Numbers that agree up to powers of two compare alike. */
  lemma {:induction false} SameSign(x: nat, y: nat, z: nat, x': nat, y': nat, z': nat, g: nat, g': nat)
    requires g > 0 && g' > 0 && x * g == x' * g' && y * g == y' * g' && z * g == z' * g'
    ensures Sign(Distance(x, y) - z) == Sign(Distance(x', y') - z') && (x < y <==> x' < y')
  {
  }

  lemma {:induction false} PowerShift(v: nat, a: nat, b: nat, g: nat, g': nat)
    requires a + g == b + g'
    ensures v * Pow(2, a) * Pow(2, g) == v * Pow(2, b) * Pow(2, g')
  {
    PowAdd(2, a, g);
    PowAdd(2, b, g');
    MulAssoc(v, Pow(2, a), Pow(2, g));
    MulAssoc(v, Pow(2, b), Pow(2, g'));
  }

  lemma {:induction false} ShiftedEqual(v: nat, a: nat, b: nat, g: nat, g': nat, x: nat, x': nat)
    requires a + g == b + g' && x == v * Pow(2, a) && x' == v * Pow(2, b)
    ensures x * Pow(2, g) == x' * Pow(2, g')
  {
    PowerShift(v, a, b, g, g');
  }

  // ---- scaling ----

  /** The exponents of two of the approximation, of the decimal and of the half unit. */
  method ErrorExponents(be: int, bits: nat, q: int, scale: nat) returns (bb2: int, bd2: int, bs2: int, j: int)
    requires bits <= 53 && be - scale >= -1074
    ensures bb2 >= 0 && bd2 >= 0 && bs2 >= 0
    ensures j == if be - scale + bits - 1 < -1022 then be - scale + 1075 else 54 - bits
    ensures bb2 - bs2 == j && bd2 - bb2 == q - be + scale
  {
    if q >= 0 {
      bb2, bd2 := 0, q;
    } else {
      bb2, bd2 := -q, 0;
    }
    if be >= 0 {
      bb2 := bb2 + be;
    } else {
      bd2 := bd2 - be;
    }
    bs2 := bb2;
    j := be - scale;
    var i := j + bits - 1;
    if i < -1022 {
      j := j + 53 + 1022;
    } else {
      j := 53 + 1 - bits;
    }
    bb2 := bb2 + j;
    bd2 := bd2 + j + scale;
    i := if bb2 < bd2 then bb2 else bd2;
    if i > bs2 {
      i := bs2;
    }
    if i > 0 {
      bb2, bd2, bs2 := bb2 - i, bd2 - i, bs2 - i;
    }
  }

  /** An odd number times 2^t that is a multiple of 2^c has t at least c. */
  lemma {:induction false} OddMultiple(v: nat, t: nat, c: nat)
    requires v % 2 == 1 && Pow(2, c) > 0 && (v * Pow(2, t)) % Pow(2, c) == 0
    ensures t >= c
  {
    if t < c {
      var w := v * Pow(2, t) / Pow(2, c);
      PowAdd(2, c - t, t);
      PowPos(2, t);
      assert v * Pow(2, t) == w * Pow(2, c - t) * Pow(2, t) by { MulAssoc(w, Pow(2, c - t), Pow(2, t)); }
      MulCancel(v, w * Pow(2, c - t), Pow(2, t));
      EvenMultiple(w, c - t);
    }
  }

  lemma {:induction false} EvenMultiple(w: nat, n: nat)
    requires n > 0
    ensures (w * Pow(2, n)) % 2 == 0
  {
    MulAssoc(w, 2, Pow(2, n - 1));
    assert w * Pow(2, n) == 2 * (w * Pow(2, n - 1));
  }

  /** A number below 2^n has at most n bits. */
  lemma {:induction false} LengthBound(v: nat, bits: nat, t: nat, n: nat)
    requires BitLength(v, bits) && v * Pow(2, t) < Pow(2, n)
    ensures bits + t <= n
  {
    if bits + t > n {
      PowMono(2, n, bits - 1 + t);
      PowAdd(2, bits - 1, t);
      MulMono(Pow(2, bits - 1), v, Pow(2, t));
    }
  }

  /** The bits below the last place of a denormalised double are zero. */
  ghost predicate Aligned(w0: Word, w1: Word, scale: nat) {
    var c := Pos(-1074 - (Exponent(w0) - scale));
    Pow(2, c) > 0 && Significand(w0, w1) % Pow(2, c) == 0
  }

  /** What the conversion to a big number says of the half unit. */
  lemma {:induction false} HalfUlpExponent(w0: Word, w1: Word, scale: nat, v: nat, be: int, bits: nat)
    requires scale == 0 || ExponentField(w0) > 0
    requires Aligned(w0, w1, scale) && v % 2 == 1 && be >= Exponent(w0) && BitLength(v, bits)
    requires v * Pow(2, be - Exponent(w0)) == Significand(w0, w1)
    requires ExponentField(w0) > 0 ==> bits == 53 - (be - Exponent(w0))
    ensures bits <= 53 && be - scale >= -1074
    ensures be - scale - HalfUlp(w0, scale) == if be - scale + bits - 1 < -1022 then be - scale + 1075 else 54 - bits
  {
    var t: nat := be - Exponent(w0);
    OddMultiple(v, t, Pos(-1074 - (Exponent(w0) - scale)));
    if ExponentField(w0) == 0 {
      Power52();
      LengthBound(v, bits, t, 52);
    }
  }

  lemma {:induction false} Power52()
    ensures Pow(2, 52) == 0x10_0000_0000_0000
  {
    Pow32();
    assert Pow(2, 5) == 32;
    PowAdd(2, 5, 5);
    PowAdd(2, 10, 10);
    PowAdd(2, 20, 32);
  }

  /** The three big numbers are proportional to approximation, decimal and half unit. */
  lemma {:induction false} CommonScale(v: nat, f: nat, e: int, be: int, scale: nat, bd: nat, q: int, h: int, m: nat, bb2: nat, bd2: nat, bs2: nat)
    returns (a: nat, b: nat)
    requires be >= e && f == v * Pow(2, be - e) && bb2 - bs2 == be - scale - h && bd2 - bb2 == q - be + scale
    requires e - scale + m >= 0 && h + m >= 0
    ensures a > 0 && b > 0
    ensures v * Pow(5, Pos(-q)) * Pow(2, bb2) * a == Approximation(f, e - scale, q, m) * b
    ensures bd * Pow(5, Pos(q)) * Pow(2, bd2) * a == Exactly(bd, q, m) * b
    ensures Pow(5, Pos(-q)) * Pow(2, bs2) * a == HalfUnit(h, q, m) * b
  {
    var n, p := Pos(-q), Pos(q);
    var r: nat := be - scale + m + n;
    var g, g' := Pos(r - bb2), Pos(bb2 - r);
    a, b := Pow(2, g), Pow(2, g');
    ApproximationPowers(v, f, e, be, scale, q, m);
    ShiftedEqual(v * Pow(5, n), bb2, r, g, g', v * Pow(5, n) * Pow(2, bb2), Approximation(f, e - scale, q, m));
    ExactlyPowers(bd, q, m);
    ShiftedEqual(bd * Pow(5, p), bd2, p + m, g, g', bd * Pow(5, p) * Pow(2, bd2), Exactly(bd, q, m));
    HalfUnitPowers(h, q, m);
    ShiftedEqual(Pow(5, n), bs2, h + m + n, g, g', Pow(5, n) * Pow(2, bs2), HalfUnit(h, q, m));
    PowPos(2, g);
    PowPos(2, g');
  }

  lemma {:induction false} ErrorExact(v: nat, f: nat, e: int, be: int, scale: nat, bd: nat, q: int, h: int, m: nat, bb2: nat, bd2: nat, bs2: nat)
    requires be >= e && f == v * Pow(2, be - e) && bb2 - bs2 == be - scale - h && bd2 - bb2 == q - be + scale
    requires e - scale + m >= 0 && h + m >= 0
    ensures Sign(Distance(v * Pow(5, Pos(-q)) * Pow(2, bb2), bd * Pow(5, Pos(q)) * Pow(2, bd2)) - Pow(5, Pos(-q)) * Pow(2, bs2))
         == Sign(Excess(f, e - scale, bd, q, h, m))
    ensures v * Pow(5, Pos(-q)) * Pow(2, bb2) < bd * Pow(5, Pos(q)) * Pow(2, bd2)
        <==> Approximation(f, e - scale, q, m) < Exactly(bd, q, m)
  {
    var a, b := CommonScale(v, f, e, be, scale, bd, q, h, m, bb2, bd2, bs2);
    SameSign(v * Pow(5, Pos(-q)) * Pow(2, bb2), bd * Pow(5, Pos(q)) * Pow(2, bd2), Pow(5, Pos(-q)) * Pow(2, bs2),
             Approximation(f, e - scale, q, m), Exactly(bd, q, m), HalfUnit(h, q, m), a, b);
  }

  lemma {:induction false} ApproximationPowers(v: nat, f: nat, e: int, be: int, scale: nat, q: int, m: nat)
    requires be >= e && f == v * Pow(2, be - e) && e - scale + m >= 0
    ensures Approximation(f, e - scale, q, m) == v * Pow(5, Pos(-q)) * Pow(2, be - scale + m + Pos(-q))
  {
    var n := Pos(-q);
    Power10(n);
    PowAdd(2, be - e, e - scale + m);
    PowAdd(2, be - scale + m, n);
    FiveProducts(v, Pow(2, be - e), Pow(2, e - scale + m), Pow(2, n), Pow(5, n));
  }

  lemma {:induction false} FiveProducts(v: nat, a: nat, b: nat, c: nat, d: nat)
    ensures v * a * b * (c * d) == v * d * (a * b * c)
  {
  }

  lemma {:induction false} ExactlyPowers(bd: nat, q: int, m: nat)
    ensures Exactly(bd, q, m) == bd * Pow(5, Pos(q)) * Pow(2, Pos(q) + m)
  {
    Power10(Pos(q));
    PowAdd(2, Pos(q), m);
    var a, b, c := Pow(2, Pos(q)), Pow(5, Pos(q)), Pow(2, m);
    assert bd * (a * b) * c == bd * b * (a * c);
  }

  lemma {:induction false} HalfUnitPowers(h: int, q: int, m: nat)
    requires h + m >= 0
    ensures HalfUnit(h, q, m) == Pow(5, Pos(-q)) * Pow(2, h + m + Pos(-q))
  {
    var n := Pos(-q);
    Power10(n);
    PowAdd(2, h + m, n);
    MulAssoc(Pow(2, h + m), Pow(2, n), Pow(5, n));
  }

  // ---- the decimal ----

  /** The nd digits of a text with a decimal point after the first nd0 of them, if there are more. */
  function Plain(text: string, nd0: nat, nd: nat): (s: string)
    requires nd0 <= nd && |text| >= if nd0 < nd then nd + 1 else nd
    ensures |s| == nd
    ensures forall i :: 0 <= i < nd ==> s[i] == if i < nd0 then text[i] else text[i + 1]
  {
    if nd0 < nd then text[..nd0] + text[nd0 + 1..nd + 1] else text[..nd]
  }

  /** The class with a word for every nine digits. */
  method DigitsClass(nd: nat) returns (k: nat)
    ensures (nd + 8) / 9 <= Pow(2, k) && (k > 0 ==> (nd + 8) / 9 > Pow(2, k - 1))
  {
    k := 0;
    var y := 1;
    while (nd + 8) / 9 > y
      invariant y == Pow(2, k) && y > 0 && (k > 0 ==> (nd + 8) / 9 > Pow(2, k - 1))
      decreases (nd + 8) / 9 - y
    {
      y, k := y * 2, k + 1;
    }
  }

  /** The digits as a number: the first nine come as a word, the others are added one by one, past the point. */
  method S2b(text: string, nd0: nat, nd: nat, y9: Word) returns (b: Bigint)
    requires 0 < nd0 <= nd && |text| >= if nd0 < nd then nd + 1 else nd
    requires IsDigits(Plain(text, nd0, nd)) && y9 == DecVal(Plain(text, nd0, nd)[..if nd < 9 then nd else 9])
    ensures fresh(b) && fresh(b.x) && b.Normal() && b.Value() == DecVal(Plain(text, nd0, nd))
  {
    hide Pow, DecVal;
    ghost var digits := Plain(text, nd0, nd);
    var k := DigitsClass(nd);
    b := new Bigint(k);
    PowPos(2, k);
    b.x[0] := y9;
    b.wds := 1;
    ValOne(b.x[..1]);
    var i := if nd < 9 then nd else 9;
    var at := 10;
    if 9 < nd0 {
      b, i := AddDigits(b, text, 9, 9, nd0, digits);
      at := nd0 + 1;
    }
    if i < nd {
      b, i := AddDigits(b, text, at, i, nd, digits);
    }
    assert digits[..nd] == digits;
  }

  /** Append the digits from number i on, which start at a position of the text. */
  method AddDigits(b0: Bigint, text: string, at: nat, i0: nat, end: nat, ghost digits: string) returns (b: Bigint, i: nat)
    requires b0.Normal() && i0 <= end <= |digits| && at + (end - i0) <= |text| && IsDigits(digits)
    requires b0.Value() == DecVal(digits[..i0])
    requires forall j :: i0 <= j < end ==> digits[j] == text[at + (j - i0)]
    modifies b0, b0.x
    ensures SameOrNew(b0, b) && b.Normal() && b.Value() == DecVal(digits[..end]) && i == end
  {
    b, i := b0, i0;
    while i < end
      invariant i0 <= i <= end && b.Normal() && SameOrNew(b0, b) && b.Value() == DecVal(digits[..i])
    {
      var c := text[at + (i - i0)];
      assert digits[..i + 1] == digits[..i] + [c];
      DecSnoc(digits[..i], c);
      b := MultAdd(b, 10, Digit(c));
      i := i + 1;
    }
  }

  /** A copy of a number. */
  method Copy(b: Bigint) returns (r: Bigint)
    requires b.Normal()
    ensures fresh(r) && fresh(r.x) && r.Normal() && r.Value() == b.Value()
  {
    r := new Bigint(b.k);
    CopyWords(r, b);
    assert r.x[r.wds - 1] == r.x[..r.wds][r.wds - 1] == b.x[..b.wds][r.wds - 1];
  }

  /** The approximation, the decimal and the half unit as big numbers. */
  method ErrorNumbers(cache: Cache, bd0: Bigint, q: int, v: Bigint, bb2: nat, bd2: nat, bs2: nat) returns (bb: Bigint, bd: Bigint, bs: Bigint)
    requires cache.Valid() && bd0.Normal() && bd0.Value() > 0 && v.Normal() && v.Value() > 0 && cache.Apart(v)
    modifies cache
    ensures cache.Valid() && bb.Normal() && bd.Normal() && bs.Normal() && bs.Value() > 0
    ensures bb.Value() == v.Value() * Pow(5, Pos(-q)) * Pow(2, bb2)
    ensures bd.Value() == old(bd0.Value()) * Pow(5, Pos(q)) * Pow(2, bd2)
    ensures bs.Value() == Pow(5, Pos(-q)) * Pow(2, bs2)
  {
    hide Pow;
    bd := DecimalNumber(cache, bd0, q, bd2);
    var b1, b2 := TimesFives(cache, v, q);
    bb := Shift(b1, bb2);
    bs := Shift(b2, bs2);
  }

  /** The decimal, without its negative powers. */
  method DecimalNumber(cache: Cache, bd0: Bigint, q: int, bd2: nat) returns (bd: Bigint)
    requires cache.Valid() && bd0.Normal() && bd0.Value() > 0
    modifies cache
    ensures cache.Valid() && old(cache.repr) <= cache.repr && fresh(cache.repr - old(cache.repr))
    ensures fresh(bd) && fresh(bd.x) && cache.Apart(bd) && bd.Normal()
    ensures bd.Value() == old(bd0.Value()) * Pow(5, Pos(q)) * Pow(2, bd2)
  {
    bd := Copy(bd0);
    bd := cache.PowMult(bd, Pos(q));
    bd := Shift(bd, bd2);
  }

  /**
   The sign of the error of the approximation less half a unit in its last place,
   and whether it is below the decimal bd0 * 10^q.
   */
  method CompareError(cache: Cache, bd0: Bigint, q: int, w0: Word, w1: Word, scale: nat) returns (i: int, below: bool)
    requires cache.Valid() && bd0.Normal() && bd0.Value() > 0
    requires Significand(w0, w1) > 0 && (scale == 0 || ExponentField(w0) > 0) && Aligned(w0, w1, scale)
    modifies cache
    ensures cache.Valid()
    ensures ErrorSign(Significand(w0, w1), Exponent(w0) - scale, old(bd0.Value()), q, HalfUlp(w0, scale), i, below)
  {
    var v, be, bb2, bd2, bs2 := ApproximationExponents(w0, w1, q, scale);
    i, below := CompareScaled(cache, bd0, q, v, be, bb2, bd2, bs2, scale, Significand(w0, w1), Exponent(w0), HalfUlp(w0, scale));
  }

  /** The comparison of the three numbers with the given exponents. */
  method CompareScaled(cache: Cache, bd0: Bigint, q: int, v: Bigint, ghost be: int, bb2: nat, bd2: nat, bs2: nat, ghost scale: nat,
                       ghost f: nat, ghost e: int, ghost h: int) returns (i: int, below: bool)
    requires cache.Valid() && bd0.Normal() && bd0.Value() > 0 && v.Normal() && v.Value() > 0 && cache.Apart(v)
    requires be >= e && f == v.Value() * Pow(2, be - e) && bb2 - bs2 == be - scale - h && bd2 - bb2 == q - be + scale
    modifies cache
    ensures cache.Valid() && ErrorSign(f, e - scale, old(bd0.Value()), q, h, i, below)
  {
    ghost var d, vv := bd0.Value(), v.Value();
    var bb, bd, bs := ErrorNumbers(cache, bd0, q, v, bb2, bd2, bs2);
    i, below := CompareDistance(bb, bd, bs);
    ErrorSignExact(vv, f, e, be, scale, d, q, h, bb2, bd2, bs2, i, below);
  }

  /** The approximation as an odd number, and the exponents of the three numbers. */
  method ApproximationExponents(w0: Word, w1: Word, q: int, scale: nat) returns (v: Bigint, be: int, bb2: int, bd2: int, bs2: int)
    requires Significand(w0, w1) > 0 && (scale == 0 || ExponentField(w0) > 0) && Aligned(w0, w1, scale)
    ensures fresh(v) && fresh(v.x) && v.Normal() && v.Value() > 0 && be >= Exponent(w0)
    ensures Significand(w0, w1) == v.Value() * Pow(2, be - Exponent(w0)) && be - scale >= -1074
    ensures bb2 >= 0 && bd2 >= 0 && bs2 >= 0
    ensures bb2 - bs2 == be - scale - HalfUlp(w0, scale) && bd2 - bb2 == q - be + scale
  {
    var bits, j;
    v, be, bits := D2b(w0, w1);
    HalfUlpExponent(w0, w1, scale, v.Value(), be, bits);
    bb2, bd2, bs2, j := ErrorExponents(be, bits, q, scale);
  }

  /** i is the sign of |f * 2^e - bd * 10^q| - 2^h, and below says whether f * 2^e < bd * 10^q. */
  ghost predicate ErrorSign(f: nat, e: int, bd: nat, q: int, h: int, i: int, below: bool) {
    forall m: nat :: e + m >= 0 && h + m >= 0 ==>
      Sign(i) == Sign(Excess(f, e, bd, q, h, m)) && (below <==> Approximation(f, e, q, m) < Exactly(bd, q, m))
  }

  lemma {:induction false} ErrorSignExact(v: nat, f: nat, e: int, be: int, scale: nat, bd: nat, q: int, h: int, bb2: nat, bd2: nat, bs2: nat, i: int, below: bool)
    requires be >= e && f == v * Pow(2, be - e) && bb2 - bs2 == be - scale - h && bd2 - bb2 == q - be + scale
    requires Sign(i) == Sign(Distance(v * Pow(5, Pos(-q)) * Pow(2, bb2), bd * Pow(5, Pos(q)) * Pow(2, bd2)) - Pow(5, Pos(-q)) * Pow(2, bs2))
    requires below <==> v * Pow(5, Pos(-q)) * Pow(2, bb2) < bd * Pow(5, Pos(q)) * Pow(2, bd2)
    ensures ErrorSign(f, e - scale, bd, q, h, i, below)
  {
    forall m: nat | e - scale + m >= 0 && h + m >= 0
      ensures Sign(i) == Sign(Excess(f, e - scale, bd, q, h, m))
      ensures below <==> Approximation(f, e - scale, q, m) < Exactly(bd, q, m)
    {
      ErrorExact(v, f, e, be, scale, bd, q, h, m, bb2, bd2, bs2);
    }
  }

  method CompareDistance(bb: Bigint, bd: Bigint, bs: Bigint) returns (i: int, below: bool)
    requires bb.Normal() && bd.Normal() && bs.Normal() && bs.Value() > 0
    ensures Sign(i) == Sign(Distance(bb.Value(), bd.Value()) - bs.Value()) && (below <==> bb.Value() < bd.Value())
  {
    var delta := Diff(bb, bd);
    below := delta.sign;
    delta.sign := false;
    i := Cmp(delta, bs);
  }

  // ---- rounding ----

  /** The approximation, the decimal and the half unit on the scale of the interval's ends. */
  lemma {:induction false} IntervalScale(f: nat, e: int, c: nat, q: int)
    ensures var m := Pos(2 - e); var u, v := Pow(2, Pos(e - 2)), Pow(2, Pos(2 - e));
      e + m >= 2 && Approximation(f, e, q, m) == 4 * f * u * Den(q) && Exactly(c, q, m) == Num(c, q) * v
      && HalfUnit(e - 1, q, m) == 2 * u * Den(q) && HalfUnit(e - 2, q, m) == u * Den(q)
  {
    var m: nat := Pos(2 - e);
    var n: nat := Pos(e - 2);
    NumDen(c, q);
    assert e + m == n + 2 && e - 1 + m == n + 1 && e - 2 + m == n;
    assert Pow(2, n + 2) == 4 * Pow(2, n) && Pow(2, n + 1) == 2 * Pow(2, n);
    MulAssoc(f, 4, Pow(2, n));
  }

  lemma {:induction false} EndProducts(f: nat, u: nat, d: nat)
    ensures (4 * f - 1) * u * d == 4 * f * u * d - u * d
    ensures (4 * f - 2) * u * d == 4 * f * u * d - 2 * u * d
    ensures (4 * f + 2) * u * d == 4 * f * u * d + 2 * u * d
  {
  }
}
