/**
 Doubles to decimal digits, from the estimate of the decimal exponent on: the
 shortest digits that round to the double, and digits to a given precision or
 position.
 */
module Dtoa {
  import opened Words
  import opened Bigints
  import opened Subtraction
  import opened Division
  import opened PowersOfFive
  import opened Doubles
  import opened Decimals
  import opened RoundingInterval
  import opened ShortestDigits
  import opened FixedDigits
  import opened Scaling
  import opened DoubleRounding

  // ---- the decimal exponent ----

  lemma {:induction false} RatioDenPos(e: int, k: int)
    ensures RatioDen(e, k) > 0
  {
    PowPos(2, Pos(-e));
    PowPos(10, Pos(k));
    MulStrict(0, Pow(2, Pos(-e)), Pow(10, Pos(k)));
  }

  lemma {:induction false} LogBounds(n: nat, s: nat, f: nat, e: int, k: int)
    requires IsRatio(n, s, f, e, k) && s > 0
    ensures IsLog10(f, e, k) <==> s <= n < 10 * s
  {
    var d, m := RatioDen(e, k), RatioNum(f, e, k);
    RatioDenPos(e, k);
    MulCancel(s, n, d);
    MulCancel(d, m, s);
    MulCancel(n, 10 * s, d);
    MulCancel(m, 10 * d, s);
    MulAssoc(10, s, d);
    MulAssoc(10, d, s);
  }

  lemma {:induction false} DenStepDown(f: nat, e: int, k: int)
    requires k > 0
    ensures RatioDen(e, k) == 10 * RatioDen(e, k - 1) && RatioNum(f, e, k) == RatioNum(f, e, k - 1)
  {
  }

  lemma {:induction false} NumStepDown(f: nat, e: int, k: int)
    requires k <= 0
    ensures RatioNum(f, e, k - 1) == 10 * RatioNum(f, e, k) && RatioDen(e, k) == RatioDen(e, k - 1)
  {
  }

  /** Dividing by one power of ten less makes the quotient tenfold. */
  lemma {:induction false} RatioStepDown(n: nat, s: nat, f: nat, e: int, k: int)
    requires IsRatio(n, s, f, e, k)
    ensures IsRatio(10 * n, s, f, e, k - 1)
  {
    if k > 0 {
      DenStepDown(f, e, k);
      MulAssoc(n, 10, RatioDen(e, k - 1));
    } else {
      NumStepDown(f, e, k);
      MulAssoc(s, 10, RatioNum(f, e, k));
      MulAssoc(10, n, RatioDen(e, k));
    }
  }

  /** A unit u such that n is gaps times u times 2^m. */
  ghost predicate InUnits(n: nat, gaps: nat, u: nat, m: nat) {
    n == gaps * (u * Pow(2, m))
  }

  lemma {:induction false} InUnitsTenfold(n: nat, gaps: nat, u: nat, m: nat)
    requires InUnits(n, gaps, u, m)
    ensures InUnits(10 * n, gaps, 10 * u, m)
  {
  }

  /** The double in half gaps below it. */
  ghost function LowerGaps(f: nat, e: int): nat {
    if Boundary(f, e) then 4 * f else 2 * f
  }

  lemma {:induction false} UnitsExact(bb: nat, f: nat, t: nat, u: nat, b2: nat, m2: nat, extra: nat, n: nat)
    requires f == bb * Pow(2, t) && b2 == m2 + t + extra && n == bb * u * Pow(2, b2)
    ensures InUnits(n, Pow(2, extra) * f, u, m2)
  {
    PowAdd(2, t + extra, m2);
    PowAdd(2, t, extra);
    UnitProducts(bb, u, Pow(2, t), Pow(2, extra), Pow(2, m2));
  }

  lemma {:induction false} UnitProducts(bb: nat, u: nat, a: nat, b: nat, c: nat)
    ensures bb * u * (a * b * c) == b * (bb * a) * (u * c)
  {
  }

  /** The exponents of the double. */
  method BinaryExponents(w0: Word, w1: Word) returns (bb: Bigint, j: int, gap: nat)
    requires Significand(w0, w1) > 0
    ensures fresh(bb) && fresh(bb.x) && bb.Normal() && bb.Value() > 0
    ensures -j >= Exponent(w0) && gap == -j - Exponent(w0) + 1
    ensures Significand(w0, w1) == bb.Value() * Pow(2, -j - Exponent(w0))
  {
    var be, bits;
    bb, be, bits := D2b(w0, w1);
    var field: int := ExponentField(w0);
    var i: int;
    if field != 0 {
      i := field - 1023;
      gap := 1 + 53 - bits;
    } else {
      i := bits + be + (1023 + 52 - 1);
      i := i - (1023 + 52 - 1 + 1);
      gap := be + (1023 + 52 - 1 + 1);
    }
    j := bits - i - 1;
    assert j == -be;
  }

  /** The test for a normalised power of two. */
  method IsBoundary(w0: Word, w1: Word) returns (r: bool)
    ensures r <==> Boundary(Significand(w0, w1), Exponent(w0))
  {
    r := w1 == 0 && w0 % 0x10_0000 == 0 && ExponentField(w0) / 2 != 0;
  }

  // ---- scaling with half gaps ----

  /** The double over the estimated power of ten, and the unit of the half gaps below it before its last shift by m2. */
  method ScaleUp(cache: Cache, w0: Word, w1: Word, k: int, boundary: bool) returns (b: Bigint, s: Bigint, u: Bigint, m2: nat)
    requires cache.Valid() && Significand(w0, w1) > 0
    requires boundary <==> Boundary(Significand(w0, w1), Exponent(w0))
    modifies cache
    ensures cache.Valid() && fresh(b) && fresh(b.x) && fresh(s) && fresh(s.x) && fresh(u) && fresh(u.x)
    ensures Distinct(b, s) && Distinct(b, u) && Distinct(s, u) && cache.Apart(b) && cache.Apart(s) && cache.Apart(u)
    ensures b.Normal() && b.Value() > 0 && Divisor(s) && u.Normal() && u.Value() > 0
    ensures IsRatio(b.Value(), s.Value(), Significand(w0, w1), Exponent(w0), k)
    ensures InUnits(b.Value(), LowerGaps(Significand(w0, w1), Exponent(w0)), u.Value(), m2)
  {
    hide Pow, IsRatio, InUnits, LowerGaps;
    var b0, j, b2, s2, i, b1;
    b0, j, b2, m2, s2 := GapExponents(w0, w1, k, boundary);
    ghost var bb := b0.Value();
    b1, u := TimesFives(cache, b0, k);
    ghost var fives := u.Value();
    b, s, i := ShiftBoth(cache, b1, b2, Pos(k), s2);
    ScaleExact(bb, Significand(w0, w1), Exponent(w0), j, k, b2, m2, s2, i, b.Value(), s.Value(), fives);
    m2 := m2 + i;
  }

  /** Dividend and divisor, shifted so that the divisor suits the division. */
  method ShiftBoth(cache: Cache, b0: Bigint, b2: nat, s5: nat, s2: nat) returns (b: Bigint, s: Bigint, i: nat)
    requires cache.Valid() && cache.Apart(b0) && b0.Normal() && b0.Value() > 0
    modifies cache
    ensures cache.Valid() && old(cache.repr) <= cache.repr && fresh(cache.repr - old(cache.repr))
    ensures b == b0 || (fresh(b) && fresh(b.x))
    ensures fresh(s) && fresh(s.x) && Distinct(b, s) && cache.Apart(b) && cache.Apart(s)
    ensures b.Normal() && b.Value() > 0 && b.Value() == b0.Value() * Pow(2, b2 + i)
    ensures Divisor(s) && s.Value() == Pow(5, s5) * Pow(2, s2 + i)
  {
    s, i := MakeDivisor(cache, s5, s2);
    b := Shift(b0, b2 + i);
  }

  /** The exponents of the double, of the divisor and of the half gap below. */
  method GapExponents(w0: Word, w1: Word, k: int, boundary: bool) returns (bb: Bigint, j: int, b2: nat, m2: nat, s2: nat)
    requires Significand(w0, w1) > 0 && (boundary <==> Boundary(Significand(w0, w1), Exponent(w0)))
    ensures fresh(bb) && fresh(bb.x) && bb.Normal() && bb.Value() > 0
    ensures -j >= Exponent(w0) && Significand(w0, w1) == bb.Value() * Pow(2, -j - Exponent(w0))
    ensures b2 - s2 == -j - k && b2 == m2 + (-j - Exponent(w0)) + if boundary then 2 else 1
  {
    var gap;
    bb, j, gap := BinaryExponents(w0, w1);
    b2, m2, s2 := Exponents(j, k, gap);
    if boundary {
      b2, s2 := b2 + 1, s2 + 1;
    }
  }

  lemma {:induction false} ScaleExact(bb: nat, f: nat, e: int, j: int, k: int, b2: nat, m2: nat, s2: nat, i: nat, n: nat, s: nat, u: nat)
    requires -j >= e && f == bb * Pow(2, -j - e) && b2 - s2 == -j - k
    requires b2 == m2 + (-j - e) + if Boundary(f, e) then 2 else 1
    requires u == Pow(5, Pos(-k)) && n == bb * u * Pow(2, b2 + i) && s == Pow(5, Pos(k)) * Pow(2, s2 + i)
    ensures IsRatio(n, s, f, e, k) && InUnits(n, LowerGaps(f, e), u, m2 + i)
  {
    RatioExact(bb, f, e, -j, k, b2 + i, s2 + i, n, s);
    assert Pow(2, 1) == 2 && Pow(2, 2) == 4;
    UnitsExact(bb, f, -j - e, u, b2 + i, m2 + i, if Boundary(f, e) then 2 else 1, n);
  }

  /** The double over its power of ten with its half gaps, in big numbers fit for digit generation. */
  method ScaleShortest(cache: Cache, w0: Word, w1: Word, k0: int, estimated: bool)
      returns (b: Bigint, s: Bigint, mlo: Bigint, mhi: Bigint, k: int, ghost t: Scaled)
    requires cache.Valid() && Significand(w0, w1) > 0
    requires Estimate(Significand(w0, w1), Exponent(w0), k0, estimated)
    modifies cache
    ensures cache.Valid() && fresh(b) && fresh(b.x) && fresh(mlo) && fresh(mlo.x) && fresh(mhi) && fresh(mhi.x)
    ensures cache.Apart(b) && cache.Apart(mlo) && cache.Apart(mhi)
    ensures Separate(b, s, mlo, mhi) && Scales(t, b, s, mlo, mhi, 1) && b.Value() == t.n
    ensures ScaledFor(t, Significand(w0, w1), Exponent(w0), k) && IsLog10(Significand(w0, w1), Exponent(w0), k)
  {
    hide Pow, IsRatio, InUnits, LowerGaps, IsLog10, ScaledFor, Estimate;
    ghost var f, e := Significand(w0, w1), Exponent(w0);
    var boundary := IsBoundary(w0, w1);
    var u, m2;
    b, s, u, m2 := ScaleUp(cache, w0, w1, k0, boundary);
    b, u, k := FixEstimate(b, s, u, k0, estimated, f, e, m2);
    mlo, mhi, t := ScaleGaps(b, s, u, m2, boundary, f, e, k);
  }

  /** The half gaps, and what they are to the double. */
  method ScaleGaps(b: Bigint, s: Bigint, u: Bigint, m2: nat, boundary: bool, ghost f: nat, ghost e: int, ghost k: int)
      returns (mlo: Bigint, mhi: Bigint, ghost t: Scaled)
    requires b.Normal() && b.Value() > 0 && Divisor(s) && u.Normal() && u.Value() > 0
    requires Distinct(b, s) && Distinct(b, u) && Distinct(s, u) && (boundary <==> Boundary(f, e))
    requires IsRatio(b.Value(), s.Value(), f, e, k) && InUnits(b.Value(), LowerGaps(f, e), u.Value(), m2)
    ensures (mlo == u || (fresh(mlo) && fresh(mlo.x))) && (mhi == u || (fresh(mhi) && fresh(mhi.x)))
    ensures Separate(b, s, mlo, mhi) && Scales(t, b, s, mlo, mhi, 1) && b.Value() == t.n && ScaledFor(t, f, e, k)
  {
    mlo, mhi := HalfGaps(u, m2, boundary);
    t := Scaled(b.Value(), s.Value(), mlo.Value(), mhi.Value(), f % 2 == 0);
    GapsExact(t, f, e, k, u.Value(), m2);
  }

  /** The half gaps below and above, which are one number unless the gap below is the smaller one. */
  method HalfGaps(u: Bigint, m2: nat, boundary: bool) returns (mlo: Bigint, mhi: Bigint)
    requires u.Normal() && u.Value() > 0
    ensures mlo.Normal() && mhi.Normal() && mlo.Value() == u.Value() * Pow(2, m2)
    ensures mhi.Value() == if boundary then mlo.Value() * 2 else mlo.Value()
    ensures mlo == mhi || Distinct(mlo, mhi)
    ensures (mlo == u || (fresh(mlo) && fresh(mlo.x))) && (mhi == u || (fresh(mhi) && fresh(mhi.x)))
  {
    mlo := Shift(u, m2);
    mhi := mlo;
    if boundary {
      mhi := ShiftLeft(mlo, 1);
      assert Pow(2, 1) == 2;
    }
  }

  lemma {:induction false} GapsExact(t: Scaled, f: nat, e: int, k: int, u: nat, m2: nat)
    requires IsRatio(t.n, t.s, f, e, k) && t.closed == (f % 2 == 0)
    requires InUnits(t.n, LowerGaps(f, e), u, m2) && t.lo == u * Pow(2, m2)
    requires t.hi == if Boundary(f, e) then t.lo * 2 else t.lo
    ensures ScaledFor(t, f, e, k)
  {
  }

  /** An estimate that was one too large is corrected. */
  method FixEstimate(b0: Bigint, s: Bigint, u0: Bigint, k0: int, estimated: bool, ghost f: nat, ghost e: int, ghost m2: nat)
      returns (b: Bigint, u: Bigint, k: int)
    requires b0.Normal() && b0.Value() > 0 && Divisor(s) && u0.Normal() && u0.Value() > 0
    requires Distinct(b0, s) && Distinct(b0, u0) && Distinct(s, u0)
    requires IsRatio(b0.Value(), s.Value(), f, e, k0) && Estimate(f, e, k0, estimated)
    requires InUnits(b0.Value(), LowerGaps(f, e), u0.Value(), m2)
    modifies b0, b0.x, u0, u0.x
    ensures SameOrNew(b0, b) && SameOrNew(u0, u) && Distinct(b, s) && Distinct(b, u) && Distinct(s, u)
    ensures b.Normal() && b.Value() > 0 && u.Normal() && u.Value() > 0
    ensures IsRatio(b.Value(), s.Value(), f, e, k) && IsLog10(f, e, k)
    ensures InUnits(b.Value(), LowerGaps(f, e), u.Value(), m2)
  {
    b, u, k := b0, u0, k0;
    DivisorPositive(s);
    LogBounds(b.Value(), s.Value(), f, e, k);
    RatioStepDown(b.Value(), s.Value(), f, e, k);
    LogBounds(10 * b.Value(), s.Value(), f, e, k - 1);
    if estimated {
      var c := Cmp(b, s);
      if c < 0 {
        InUnitsTenfold(b.Value(), LowerGaps(f, e), u.Value(), m2);
        k := k - 1;
        b := MultAdd(b, 10, 0);
        u := MultAdd(u, 10, 0);
      }
    }
  }

  // ---- the shortest digits ----

  lemma {:induction false} SignificandParity(w0: Word, w1: Word)
    ensures Significand(w0, w1) % 2 == w1 % 2
    ensures Significand(w0, w1) > 0 ==> IsDouble(Significand(w0, w1), Exponent(w0))
  {
  }

  /** A finite positive double. */
  ghost predicate IsDouble(f: nat, e: int) {
    0 < f < 0x20_0000_0000_0000 && -1074 <= e && (e == -1074 || f >= 0x10_0000_0000_0000)
  }

  lemma {:induction false} ScaledOk(t: Scaled, f: nat, e: int, k: int)
    requires ScaledFor(t, f, e, k) && IsLog10(f, e, k) && IsDouble(f, e) && t.s > 0
    ensures t.Ok() && t.n < 0x20_0000_0000_0000 * (t.lo + t.hi)
    ensures t.hi == if Boundary(f, e) then 2 * t.lo else t.lo
  {
    LogBounds(t.n, t.s, f, e, k);
    if Boundary(f, e) {
      UnequalGaps(t.n, f, t.lo, t.hi);
    } else {
      EqualGaps(t.n, f, t.lo, t.hi);
    }
  }

  lemma {:induction false} UnequalGaps(n: nat, f: nat, lo: nat, hi: nat)
    requires n == 2 * f * hi && n == 4 * f * lo && n > 0 && f == 0x10_0000_0000_0000
    ensures hi == 2 * lo && 0 < lo < n && n < 0x20_0000_0000_0000 * (lo + hi)
  {
  }

  lemma {:induction false} EqualGaps(n: nat, f: nat, lo: nat, hi: nat)
    requires n == 2 * f * hi && n == 2 * f * lo && n > 0 && 0 < f < 0x20_0000_0000_0000
    ensures hi == lo && 0 < lo < n && n < 0x20_0000_0000_0000 * (lo + hi)
  {
  }

  lemma {:induction false} PowerOfTwoMod5(n: nat)
    ensures Pow(2, n) % 5 != 0
  {
    if n > 0 {
      PowerOfTwoMod5(n - 1);
    }
  }

  /** A double below one with a small even significand has no power of ten at the end of its interval. */
  lemma {:induction false} NoSmallTie(t: Scaled, f: nat, e: int, k: int)
    requires ScaledFor(t, f, e, k) && 0 < f < 10 && e <= 0 && t.hi > 0
    ensures t.n + t.hi != 10 * t.s
  {
    if t.n + t.hi == 10 * t.s {
      var p', ten, ten' := Pow(2, Pos(-e)), Pow(10, Pos(k)), Pow(10, Pos(-k));
      assert Pow(2, Pos(e)) == 1;
      CancelTie(t.n, t.s, f, t.hi, p', ten, ten');
      TieFactors(f, Pos(-e), k);
    }
  }

  /** The factors of two and five on both sides cannot agree. */
  lemma {:induction false} TieFactors(f: nat, n: nat, k: int)
    requires 0 < f < 10
    ensures 20 * (Pow(2, n) * Pow(10, Pos(k))) != (2 * f + 1) * Pow(10, Pos(-k))
  {
    PowPos(2, n);
    if k >= 0 {
      PowPos(10, k);
      MulStrict(0, Pow(2, n), Pow(10, k));
      assert Pow(10, Pos(-k)) == 1;
    } else if k == -1 {
      assert Pow(10, 0) == 1 && Pow(10, 1) == 10;
    } else {
      var rest := Pow(10, -k - 2);
      assert Pow(10, -k) == 10 * Pow(10, -k - 1) == 100 * rest;
      MulAssoc(2 * f + 1, 100, rest);
      PowerOfTwoMod5(n);
      FiveDivides(Pow(2, n), (2 * f + 1) * rest);
    }
  }

  lemma {:induction false} FiveDivides(p: nat, m: nat)
    requires p % 5 != 0
    ensures 20 * p != 100 * m
  {
  }

  lemma {:induction false} CancelTie(n: nat, s: nat, f: nat, hi: nat, p': nat, ten: nat, ten': nat)
    requires n * (p' * ten) == s * (f * (1 * ten')) && n == 2 * f * hi && n + hi == 10 * s && f > 0 && hi > 0
    ensures 20 * (p' * ten) == (2 * f + 1) * ten'
  {
  }

  /** A power of ten at the upper end of the interval is the only one-digit decimal in it. */
  lemma {:induction false} TieIsClosest(t: Scaled, f: nat, e: int, k: int)
    requires ScaledFor(t, f, e, k) && IsDouble(f, e) && t.Ok() && t.n + t.hi == 10 * t.s
    ensures Closest(t, 10, 1)
  {
    if f < 10 {
      NoSmallTie(t, f, e, k);
    }
    MulMono(20, 2 * f, t.hi);
    forall c: nat | Inside(t, c, 1)
      ensures Distance(10 * t.s, t.n * 1) <= Distance(c * t.s, t.n * 1)
    {
      Sides(c, 9, t.s);
      Sides(c, 10, t.s);
    }
  }

  /** The digits found for the scaled number are the shortest decimal of the double. */
  lemma {:induction false} ShortestOfDouble(t: Scaled, f: nat, e: int, k: int, digits: seq<char>, carry: nat)
    requires ScaledFor(t, f, e, k) && IsDouble(f, e) && t.Ok() && Shortest(t, digits, carry)
    ensures ShortestDecimal(f, e, digits, k + carry + 1)
  {
    var n, c0, q0 := |digits|, DecVal(digits), k + carry + 1 - |digits|;
    SameDecimal(c0, n, carry);
    if carry == 1 && t.n + t.hi == 10 * t.s {
      TieIsClosest(t, f, e, k);
      DecOne(digits);
      assert Pow(10, 1) == 10 && Pow(10, 0) == 1;
    }
    assert q0 - k == carry + 1 - n;
    DecimalRounds(t, f, e, k, c0, q0);
    forall c: nat, q: int | c < Pow(10, n - 1)
      ensures !RoundsTo(f, e, Num(c, q), Den(q))
    {
      DecimalRounds(t, f, e, k, c, q);
    }
    forall c: nat, q: int | c < Pow(10, n) && RoundsTo(f, e, Num(c, q), Den(q))
      ensures NoFarther(f, e, Num(c0, q0), Den(q0), Num(c, q), Den(q))
    {
      DecimalRounds(t, f, e, k, c, q);
      ClosestOfAll(t, c0 * Pow(10, carry), n - 1, c, q - k);
      DecimalNearer(t, f, e, k, c0, q0, c, q);
    }
  }

  /** The digits with the carry as a decimal. */
  lemma {:induction false} SameDecimal(c: nat, n: nat, carry: nat)
    requires n > 0 && (carry == 0 || (carry == 1 && n == 1))
    ensures Num(c, carry + 1 - n) == c * Pow(10, carry) && Den(carry + 1 - n) == Pow(10, n - 1)
  {
  }

  /**
   The shortest digits of a double, and the position of the decimal point
   before them, given the decimal exponent or an estimate that is one too large.
   */
  method DtoaShortest(cache: Cache, w0: Word, w1: Word, k0: int, estimated: bool, buf: array<char>) returns (n: nat, point: int)
    requires cache.Valid() && buf.Length >= 18 && Significand(w0, w1) > 0
    requires Estimate(Significand(w0, w1), Exponent(w0), k0, estimated)
    modifies cache, buf
    ensures cache.Valid() && 1 <= n <= 17 && buf[n] == '\0'
    ensures ShortestDecimal(Significand(w0, w1), Exponent(w0), buf[..n], point)
  {
    var b, s, mlo, mhi, k;
    ghost var t;
    b, s, mlo, mhi, k, t := ScaleShortest(cache, w0, w1, k0, estimated);
    SignificandParity(w0, w1);
    n, point := ShortestDigitsOf(b, s, mlo, mhi, w1 % 2 == 0, k, buf, t, Significand(w0, w1), Exponent(w0));
  }

  /** The digits of the scaled number, and the position of the decimal point. */
  method ShortestDigitsOf(b: Bigint, s: Bigint, mlo: Bigint, mhi: Bigint, closed: bool, k: int, buf: array<char>, ghost t: Scaled, ghost f: nat, ghost e: int)
      returns (n: nat, point: int)
    requires ScaledFor(t, f, e, k) && IsLog10(f, e, k) && IsDouble(f, e) && closed == (f % 2 == 0)
    requires Separate(b, s, mlo, mhi) && Scales(t, b, s, mlo, mhi, 1) && b.Value() == t.n && buf.Length >= 18
    modifies b, b.x, mlo, mlo.x, mhi, mhi.x, buf
    ensures 1 <= n <= 17 && buf[n] == '\0' && ShortestDecimal(f, e, buf[..n], point)
  {
    DivisorPositive(s);
    ScaledOk(t, f, e, k);
    var carry;
    n, carry := Generate(b, s, mlo, mhi, closed, buf, t);
    ghost var digits := buf[..n];
    point := k + carry + 1;
    ShortestOfDouble(t, f, e, k, digits, carry);
    buf[n] := '\0';
    assert buf[..n] == digits;
  }
}
