/**
 The scaling before digit generation: a double divided by a power of ten, as a
 quotient of big numbers whose divisor suits one-digit division, together with
 the half gaps to the neighbouring doubles.
 */
module Scaling {
  import opened Words
  import opened Bigints
  import opened Subtraction
  import opened Division
  import opened PowersOfFive
  import opened Doubles
  import opened RoundingInterval
  import opened ShortestDigits

  function Pos(x: int): nat {
    if x > 0 then x else 0
  }

  /** f * 2^e / 10^k as a fraction. */
  ghost function RatioNum(f: nat, e: int, k: int): nat {
    f * (Pow(2, Pos(e)) * Pow(10, Pos(-k)))
  }

  ghost function RatioDen(e: int, k: int): nat {
    Pow(2, Pos(-e)) * Pow(10, Pos(k))
  }

  /** n / s is f * 2^e / 10^k. */
  ghost predicate IsRatio(n: nat, s: nat, f: nat, e: int, k: int) {
    n * RatioDen(e, k) == s * RatioNum(f, e, k)
  }

  /** 10^k <= f * 2^e, and below 10^(k+1). */
  ghost predicate IsLog10(f: nat, e: int, k: int) {
    RatioDen(e, k) <= RatioNum(f, e, k) < 10 * RatioDen(e, k)
  }

  /** k is the decimal exponent, or one more and then marked as an estimate. */
  ghost predicate Estimate(f: nat, e: int, k: int, estimated: bool) {
    IsLog10(f, e, k) || (estimated && IsLog10(f, e, k - 1))
  }

  /** The double is a normalised power of two: the gap below it is half the gap above. */
  ghost predicate Boundary(f: nat, e: int) {
    f == 0x10_0000_0000_0000 && e > -1074
  }

  /** t is f * 2^e / 10^k with the half gaps to its neighbours. */
  ghost predicate ScaledFor(t: Scaled, f: nat, e: int, k: int) {
    IsRatio(t.n, t.s, f, e, k) && t.closed == (f % 2 == 0)
    && t.n == 2 * f * t.hi && t.n == (if Boundary(f, e) then 4 * f else 2 * f) * t.lo
  }

  // ---- exponents ----

  lemma {:induction false} Power10(n: nat)
    ensures Pow(10, n) == Pow(2, n) * Pow(5, n)
  {
    PowProduct(2, 5, n);
  }

  lemma {:induction false} RatioExact(bb: nat, f: nat, e: int, be: int, k: int, b2: nat, s2: nat, n: nat, s: nat)
    requires be >= e && f == bb * Pow(2, be - e) && b2 - s2 == be - k
    requires n == bb * Pow(5, Pos(-k)) * Pow(2, b2) && s == Pow(5, Pos(k)) * Pow(2, s2)
    ensures IsRatio(n, s, f, e, k)
  {
    var t: nat := be - e;
    Power10(Pos(k));
    Power10(Pos(-k));
    var l, r := b2 + Pos(-e) + Pos(k), s2 + t + Pos(e) + Pos(-k);
    assert l == r;
    PowAdd(2, b2, Pos(-e));
    PowAdd(2, b2 + Pos(-e), Pos(k));
    PowAdd(2, s2, t);
    PowAdd(2, s2 + t, Pos(e));
    PowAdd(2, s2 + t + Pos(e), Pos(-k));
    RatioProducts(bb, Pow(5, Pos(-k)), Pow(5, Pos(k)), Pow(2, b2), Pow(2, Pos(-e)), Pow(2, Pos(k)),
      Pow(2, s2), Pow(2, t), Pow(2, Pos(e)), Pow(2, Pos(-k)));
  }

  lemma {:induction false} RatioProducts(bb: nat, q: nat, p: nat, a: nat, b: nat, c: nat, g: nat, h: nat, i: nat, j: nat)
    requires a * b * c == g * h * i * j
    ensures bb * q * a * (b * (c * p)) == p * g * (bb * h * (i * (j * q)))
  {
  }

  /**
   The exponents of two, before the divisor is normalised.  The double is an
   integer times 2^-j, and 2^gap times as many half gaps.
   */
  method Exponents(j: int, k: int, gap: nat) returns (b2: nat, m2: nat, s2: nat)
    ensures b2 - s2 == -j - k && b2 == m2 + gap
  {
    if j >= 0 {
      b2, s2 := 0, j;
    } else {
      b2, s2 := -j, 0;
    }
    if k >= 0 {
      s2 := s2 + k;
    } else {
      b2 := b2 - k;
    }
    m2 := b2;
    b2, s2 := b2 + gap, s2 + gap;
    if m2 > 0 && s2 > 0 {
      var i := if m2 < s2 then m2 else s2;
      b2, m2, s2 := b2 - i, m2 - i, s2 - i;
    }
  }

  // ---- the divisor ----

  lemma {:induction false} BitLengthGrow(v: nat, bits: nat, n: nat)
    requires BitLength(v, bits)
    ensures BitLength(v * Pow(2, n), bits + n)
  {
    PowPos(2, n);
    PowAdd(2, bits, n);
    PowAdd(2, bits - 1, n);
    MulMono(Pow(2, bits - 1), v, Pow(2, n));
    MulStrict(v, Pow(2, bits), Pow(2, n));
  }

  /** A bit length of 28 more than a multiple of 32 leaves four zero bits at the top. */
  lemma {:induction false} DivisorShape(s: Bigint, bits: nat)
    requires s.Normal() && BitLength(s.Value(), bits) && bits % 32 == 28
    ensures Divisor(s)
  {
    var m := bits / 32;
    var words: seq<nat> := s.x[..s.wds];
    SmallPowers();
    PlacePow(m);
    PowAdd(2, 27, 32 * m);
    PowAdd(2, 28, 32 * m);
    PlacePos(m);
    assert 0x800_0000 * Place(m) <= Val(words) < 0x1000_0000 * Place(m);
    TopWord(words, m);
  }

  lemma {:induction false} TopWord(words: seq<nat>, m: nat)
    requires |words| > 0 && AreWords(words) && (|words| == 1 || words[|words| - 1] != 0)
    requires 0x800_0000 * Place(m) <= Val(words) < 0x1000_0000 * Place(m)
    ensures |words| == m + 1 && 0x800_0000 <= words[m] < 0x1000_0000
  {
    var n := |words|;
    ValBound(words);
    TopBounds(words);
    PlacePos(m);
    if n <= m {
      PlaceMono(n, m);
    } else if n > m + 1 {
      ValTop(words);
      PlaceMono(m + 1, n - 1);
    } else {
      MulCancel(words[m], 0x1000_0000, Place(m));
      MulCancel(0x800_0000, words[m] + 1, Place(m));
    }
  }

  /** How far to shift a divisor of the given bit length. */
  method DivisorShift(length: nat) returns (i: nat)
    ensures (length + i) % 32 == 28
  {
    i := length % 32;
    if i != 0 {
      i := 32 - i;
    }
    if i > 4 {
      i := i - 4;
    } else if i < 4 {
      i := i + 28;
    } else {
      i := 0;
    }
  }

  /** A shift by nothing keeps the number. */
  method Shift(b: Bigint, n: nat) returns (r: Bigint)
    requires b.Normal() && b.Value() > 0
    ensures r.Normal() && r.Value() == b.Value() * Pow(2, n) && r.Value() > 0 && (r == b || (fresh(r) && fresh(r.x)))
  {
    PowPos(2, n);
    MulStrict(0, b.Value(), Pow(2, n));
    if n > 0 {
      r := ShiftLeft(b, n);
    } else {
      r := b;
      assert Pow(2, 0) == 1;
    }
  }

  /** 5^n as a new number. */
  method PowerOfFive(cache: Cache, n: nat) returns (p: Bigint)
    requires cache.Valid()
    modifies cache
    ensures cache.Valid() && old(cache.repr) <= cache.repr && fresh(cache.repr - old(cache.repr))
    ensures fresh(p) && fresh(p.x) && cache.Apart(p) && p.Normal() && p.Value() == Pow(5, n) && p.Value() > 0
  {
    p := Small(1);
    if n > 0 {
      p := cache.PowMult(p, n);
    }
    assert Pow(5, 0) == 1;
    PowPos(5, n);
  }

  /** The divisor 10^k, or one, times a power of two that suits the division; i is the additional shift. */
  method MakeDivisor(cache: Cache, s5: nat, s2: nat) returns (s: Bigint, i: nat)
    requires cache.Valid()
    modifies cache
    ensures cache.Valid() && old(cache.repr) <= cache.repr && fresh(cache.repr - old(cache.repr))
    ensures fresh(s) && fresh(s.x) && cache.Apart(s) && Divisor(s) && s.Value() == Pow(5, s5) * Pow(2, s2 + i)
  {
    s := PowerOfFive(cache, s5);
    var length := 1;
    if s5 > 0 {
      length := LengthOf(s);
    } else {
      assert s.Value() == Pow(5, 0) == Pow(2, 0) == 1;
    }
    assert BitLength(s.Value(), length);
    i := DivisorShift(length + s2);
    BitLengthGrow(s.Value(), length, s2 + i);
    s := Shift(s, s2 + i);
    DivisorShape(s, length + s2 + i);
  }

  /** The number times 5^-k, if k is negative, and that power. */
  method TimesFives(cache: Cache, b: Bigint, k: int) returns (r: Bigint, u: Bigint)
    requires cache.Valid() && cache.Apart(b) && b.Normal() && b.Value() > 0
    modifies cache
    ensures cache.Valid() && old(cache.repr) <= cache.repr && fresh(cache.repr - old(cache.repr))
    ensures fresh(u) && fresh(u.x) && u.Normal() && u.Value() == Pow(5, Pos(-k)) && u.Value() > 0
    ensures (r == b || (fresh(r) && fresh(r.x))) && Distinct(r, u) && cache.Apart(r) && cache.Apart(u)
    ensures r.Normal() && r.Value() == b.Value() * u.Value() && r.Value() > 0
  {
    u := PowerOfFive(cache, Pos(-k));
    if k < 0 {
      r := Times(b, u);
    } else {
      r := b;
      assert Pow(5, 0) == 1;
      ghost var v := u.Value();
      assert v == 1;
    }
  }
}
