/**
 Doubles to a given number of significant digits, or of digits after the
 decimal point.
 */
module DtoaFixed {
  import opened Words
  import opened Bigints
  import opened Subtraction
  import opened Division
  import opened PowersOfFive
  import opened Doubles
  import opened Decimals
  import opened RoundingInterval
  import opened ShortestDigits
  import opened FixedDigits
  import opened Scaling
  import opened Dtoa

  /** f * 2^e / 10^k to the nearest integer, and up when it is half way. */
  ghost function RoundedDouble(f: nat, e: int, k: int): nat {
    RatioDenPos(e, k);
    RoundHalfUp(RatioNum(f, e, k), RatioDen(e, k))
  }

  // ---- ratios ----

  lemma {:induction false} RatioStepUp(n: nat, s: nat, f: nat, e: int, k: int)
    requires IsRatio(n, s, f, e, k)
    ensures IsRatio(n, 10 * s, f, e, k + 1)
  {
    if k + 1 > 0 {
      DenStepDown(f, e, k + 1);
      MulAssoc(n, 10, RatioDen(e, k));
      MulAssoc(10, s, RatioNum(f, e, k));
    } else {
      NumStepDown(f, e, k + 1);
      MulAssoc(s, 10, RatioNum(f, e, k + 1));
    }
  }

  lemma {:induction false} RatioDown(n: nat, s: nat, f: nat, e: int, k: int, j: nat)
    requires IsRatio(n, s, f, e, k)
    ensures IsRatio(n * Pow(10, j), s, f, e, k - j)
    decreases j
  {
    if j > 0 {
      RatioDown(n, s, f, e, k, j - 1);
      RatioStepDown(n * Pow(10, j - 1), s, f, e, k - (j - 1));
      Tenfold(n, j - 1);
    }
  }

  lemma {:induction false} RatioUp(n: nat, s: nat, f: nat, e: int, k: int, j: nat)
    requires IsRatio(n, s, f, e, k)
    ensures IsRatio(n, s * Pow(10, j), f, e, k + j)
    decreases j
  {
    if j > 0 {
      RatioUp(n, s, f, e, k, j - 1);
      RatioStepUp(n, s * Pow(10, j - 1), f, e, k + (j - 1));
      Tenfold(s, j - 1);
    }
  }

  lemma {:induction false} RoundEqual(a: nat, s: nat, a2: nat, s2: nat)
    requires s > 0 && s2 > 0 && a * s2 == s * a2
    ensures RoundHalfUp(a, s) == RoundHalfUp(a2, s2)
  {
    var v := RoundHalfUp(a2, s2);
    RoundHalfUpUnique(a2, s2, v);
    var l, m, h := 2 * a - s, 2 * (v * s), 2 * a + s;
    var l2, m2, h2 := 2 * a2 - s2, 2 * (v * s2), 2 * a2 + s2;
    assert l * s2 == l2 * s && m * s2 == m2 * s && h * s2 == h2 * s by {
      MulSwap(v, s, s2);
      MulAssoc(2, a, s2);
      MulAssoc(2, a2, s);
    }
    MulCancel(l2, m2, s);
    MulCancel(m2, h2, s);
    MulCancel(l, m, s2);
    MulCancel(m, h, s2);
    RoundHalfUpUnique(a, s, v);
  }

  /** Rounding the scaled number rounds the double. */
  lemma {:induction false} RoundsDouble(n: nat, s: nat, f: nat, e: int, k: int)
    requires IsRatio(n, s, f, e, k) && s > 0
    ensures RoundHalfUp(n, s) == RoundedDouble(f, e, k)
  {
    RatioDenPos(e, k);
    RoundEqual(n, s, RatioNum(f, e, k), RatioDen(e, k));
  }

  // ---- scaling without half gaps ----

  /** The double over its power of ten, in big numbers fit for digit generation. */
  method ScalePlain(cache: Cache, w0: Word, w1: Word, k0: int, estimated: bool) returns (b: Bigint, s: Bigint, k: int)
    requires cache.Valid() && Significand(w0, w1) > 0
    requires Estimate(Significand(w0, w1), Exponent(w0), k0, estimated)
    modifies cache
    ensures cache.Valid() && fresh(b) && fresh(b.x) && fresh(s) && fresh(s.x)
    ensures Distinct(b, s) && cache.Apart(b) && cache.Apart(s) && b.Normal() && b.Value() > 0 && Divisor(s)
    ensures IsRatio(b.Value(), s.Value(), Significand(w0, w1), Exponent(w0), k)
    ensures IsLog10(Significand(w0, w1), Exponent(w0), k) && (k == k0 || (estimated && k == k0 - 1))
  {
    ghost var f, e := Significand(w0, w1), Exponent(w0);
    b, s := PlainQuotient(cache, w0, w1, k0);
    b, k := FixPlain(b, s, k0, estimated, f, e);
  }

  method PlainQuotient(cache: Cache, w0: Word, w1: Word, k: int) returns (b: Bigint, s: Bigint)
    requires cache.Valid() && Significand(w0, w1) > 0
    modifies cache
    ensures cache.Valid() && fresh(b) && fresh(b.x) && fresh(s) && fresh(s.x)
    ensures Distinct(b, s) && cache.Apart(b) && cache.Apart(s) && b.Normal() && b.Value() > 0 && Divisor(s)
    ensures IsRatio(b.Value(), s.Value(), Significand(w0, w1), Exponent(w0), k)
  {
    hide Pow, IsRatio;
    var j, gap, b2, m2, s2, i;
    b, j, gap := BinaryExponents(w0, w1);
    ghost var bb := b.Value();
    b2, m2, s2 := Exponents(j, k, 0);
    b := cache.PowMult(b, Pos(-k));
    b, s, i := ShiftBoth(cache, b, b2, Pos(k), s2);
    RatioExact(bb, Significand(w0, w1), Exponent(w0), -j, k, b2 + i, s2 + i, b.Value(), s.Value());
  }

  /** An estimate that was one too large is corrected. */
  method FixPlain(b0: Bigint, s: Bigint, k0: int, estimated: bool, ghost f: nat, ghost e: int) returns (b: Bigint, k: int)
    requires b0.Normal() && b0.Value() > 0 && Divisor(s) && Distinct(b0, s)
    requires IsRatio(b0.Value(), s.Value(), f, e, k0) && Estimate(f, e, k0, estimated)
    modifies b0, b0.x
    ensures SameOrNew(b0, b) && Distinct(b, s) && b.Normal() && b.Value() > 0
    ensures IsRatio(b.Value(), s.Value(), f, e, k) && IsLog10(f, e, k) && (k == k0 || (estimated && k == k0 - 1))
  {
    b, k := b0, k0;
    DivisorPositive(s);
    LogBounds(b.Value(), s.Value(), f, e, k);
    RatioStepDown(b.Value(), s.Value(), f, e, k);
    LogBounds(10 * b.Value(), s.Value(), f, e, k - 1);
    if estimated {
      var c := Cmp(b, s);
      if c < 0 {
        k := k - 1;
        b := MultAdd(b, 10, 0);
      }
    }
  }

  // ---- digits ----

  /** 0.digits * 10^point is f * 2^e rounded half up at the position 10^-places; zero is written "0". */
  ghost predicate RoundedDecimal(f: nat, e: int, places: int, digits: seq<char>, point: int) {
    if digits == "0" then point == 1 && RoundedDouble(f, e, -places) == 0
    else (
      Significant(digits) && point - |digits| + places >= 0
      && DecVal(digits) * Pow(10, point - |digits| + places) == RoundedDouble(f, e, -places))
  }

  lemma {:induction false} RoundedIsDecimal(n: nat, s: nat, f: nat, e: int, k: int, limit: nat, digits: seq<char>, carry: nat)
    requires IsRatio(n, s, f, e, k) && limit > 0 && Rounded(n, s, limit, digits, carry)
    ensures RoundedDecimal(f, e, limit - 1 - k, digits, k + carry + 1)
  {
    RatioDown(n, s, f, e, k, limit - 1);
    RoundsDouble(n * Pow(10, limit - 1), s, f, e, k - (limit - 1));
    assert k - (limit - 1) == -(limit - 1 - k);
    assert k + carry + 1 - |digits| + (limit - 1 - k) == limit - |digits| + carry;
  }

  /** limit significant digits, or fewer if the rest are zeros, rounded half up. */
  method DtoaPrecision(cache: Cache, w0: Word, w1: Word, k0: int, estimated: bool, ndigits: int, buf: array<char>) returns (n: nat, point: int, ghost k: int)
    requires cache.Valid() && Significand(w0, w1) > 0
    requires Estimate(Significand(w0, w1), Exponent(w0), k0, estimated)
    requires buf.Length > ndigits && buf.Length > 1
    modifies cache, buf
    ensures cache.Valid() && n < buf.Length && n <= (if ndigits <= 0 then 1 else ndigits) && buf[n] == '\0'
    ensures IsLog10(Significand(w0, w1), Exponent(w0), k)
    ensures RoundedDecimal(Significand(w0, w1), Exponent(w0), (if ndigits <= 0 then 1 else ndigits) - 1 - k, buf[..n], point)
  {
    var limit := if ndigits <= 0 then 1 else ndigits;
    var b, s, k1 := ScalePlain(cache, w0, w1, k0, estimated);
    k := k1;
    n, point := DigitsOf(b, s, k1, limit, buf, Significand(w0, w1), Exponent(w0));
    ghost var digits := buf[..n];
    buf[n] := '\0';
    assert buf[..n] == digits;
  }

  /** The digits of the scaled number, and the position of the decimal point. */
  method DigitsOf(b: Bigint, s: Bigint, k: int, limit: nat, buf: array<char>, ghost f: nat, ghost e: int) returns (n: nat, point: int)
    requires b.Normal() && b.Value() > 0 && Divisor(s) && Distinct(b, s) && 0 < limit < buf.Length
    requires IsRatio(b.Value(), s.Value(), f, e, k) && IsLog10(f, e, k)
    modifies b, b.x, buf
    ensures n <= limit && RoundedDecimal(f, e, limit - 1 - k, buf[..n], point)
  {
    DivisorPositive(s);
    LogBounds(b.Value(), s.Value(), f, e, k);
    ghost var bv := b.Value();
    var carry;
    n, carry := GenerateFixed(b, s, limit, buf);
    point := k + carry + 1;
    RoundedIsDecimal(bv, s.Value(), f, e, k, limit, buf[..n], carry);
  }

  /** The number of digits of the buffer for digits up to the position ndigits. */
  function FixedSize(ndigits: int, k: int): nat {
    if ndigits + k + 1 <= 0 then 1 else ndigits + k + 1
  }

  /** Digits up to the position 10^-ndigits, rounded half up; a number that rounds to nothing is written "0". */
  method DtoaFixed(cache: Cache, w0: Word, w1: Word, k0: int, estimated: bool, ndigits: int, buf: array<char>) returns (n: nat, point: int)
    requires cache.Valid() && Significand(w0, w1) > 0
    requires Estimate(Significand(w0, w1), Exponent(w0), k0, estimated)
    requires buf.Length > FixedSize(ndigits, k0)
    modifies cache, buf
    ensures cache.Valid() && n <= FixedSize(ndigits, k0) && buf[n] == '\0'
    ensures RoundedDecimal(Significand(w0, w1), Exponent(w0), ndigits, buf[..n], point)
  {
    var b, s, k := ScalePlain(cache, w0, w1, k0, estimated);
    var limit := ndigits + k + 1;
    if limit <= 0 {
      n, point := NoDigits(b, s, k, ndigits, buf, Significand(w0, w1), Exponent(w0));
    } else {
      n, point := DigitsOf(b, s, k, limit, buf, Significand(w0, w1), Exponent(w0));
    }
    ghost var digits := buf[..n];
    buf[n] := '\0';
    assert buf[..n] == digits;
  }

  /** No digit lies before the last position: zero, or one if the number is at least half. */
  method NoDigits(b: Bigint, s: Bigint, k: int, ndigits: int, buf: array<char>, ghost f: nat, ghost e: int) returns (n: nat, point: int)
    requires b.Normal() && b.Value() > 0 && Divisor(s) && Distinct(b, s) && buf.Length > 1 && ndigits + k + 1 <= 0
    requires IsRatio(b.Value(), s.Value(), f, e, k) && IsLog10(f, e, k)
    modifies s, s.x, buf
    ensures n == 1 && RoundedDecimal(f, e, ndigits, buf[..n], point)
  {
    DivisorPositive(s);
    LogBounds(b.Value(), s.Value(), f, e, k);
    n := 1;
    HalfPlace(b.Value(), s.Value(), f, e, k, ndigits);
    var limit := ndigits + k + 1;
    var c := -1;
    if limit == 0 {
      var five := MultAdd(s, 5, 0);
      c := Cmp(b, five);
    }
    if c < 0 {
      buf[0] := '0';
      point := 1;
    } else {
      buf[0] := '1';
      point := k + 2;
      DecOne(buf[..1]);
      assert Pow(10, 0) == 1;
    }
    assert buf[..1] == [buf[0]];
  }

  lemma {:induction false} HalfPlace(n: nat, s: nat, f: nat, e: int, k: int, ndigits: int)
    requires IsRatio(n, s, f, e, k) && 0 < s <= n < 10 * s && ndigits + k + 1 <= 0
    ensures RoundedDouble(f, e, -ndigits) == if ndigits + k + 1 == 0 && n >= 5 * s then 1 else 0
  {
    var j: nat := -ndigits - k;
    RatioUp(n, s, f, e, k, j);
    PowPos(10, j);
    MulStrict(0, s, Pow(10, j));
    var big := s * Pow(10, j);
    RoundsDouble(n, big, f, e, -ndigits);
    assert Pow(10, 1) == 10;
    if j > 1 {
      PowMono(10, 2, j);
      assert Pow(10, 2) == 100;
      MulMono(100, Pow(10, j), s);
    }
    RoundHalfUpUnique(n, big, if j == 1 && n >= 5 * s then 1 else 0);
  }
}
