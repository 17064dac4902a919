/**
 What decimal to double conversion decides about an approximation: it stays, it
 moves by one unit in its last place, or it is too far away.  For every outcome
 the chosen double is the one that the decimal rounds to, except for denormalised
 doubles half way between two others.
 */
module StrtodDecision {
  import opened Words
  import opened Bigints
  import opened Subtraction
  import opened PowersOfFive
  import opened Doubles
  import opened Decimals
  import opened Dtoa
  import opened RoundingInterval
  import opened Scaling
  import opened DoubleRounding
  import opened Strtod

  /**
   Half stands for the largest double below a power of two, which is half a unit
   below it; Zero for the result of an underflow, and Far for an error above half
   a unit, after which the approximation is adjusted and compared again.
   */
  datatype Verdict = Accepted | Up | Down | Half | Zero | Far

  /** The places that an approximation scaled up is too high by, 2 * P. */
  const SCALE: nat := 106

  /** An approximation that is scaled up if it may be denormalised. */
  predicate ScaledUp(w0: Word, scale: nat) {
    if scale == 0 then ExponentField(w0) > SCALE + 1 else scale == SCALE && ExponentField(w0) > 0
  }

  /** The zero bits at the end of the significand of a denormalised double that is scaled up. */
  function Zeros(w0: Word, scale: nat): nat {
    Pos(-1074 - (Exponent(w0) - scale))
  }

  /** The double itself: its significand, in units of its last place. */
  function Units(w0: Word, w1: Word, scale: nat): nat {
    PowPositive(Zeros(w0, scale));
    Significand(w0, w1) / Pow(2, Zeros(w0, scale))
  }

  function LastPlace(w0: Word, scale: nat): int {
    Exponent(w0) - scale + Zeros(w0, scale)
  }

  lemma {:induction false} PowPositive(n: nat)
    ensures Pow(2, n) > 0
  {
    PowPos(2, n);
  }

  // ---- the words ----

  predicate PowerOfTwo(w0: Word, w1: Word) {
    w0 % 0x10_0000 == 0 && w1 == 0
  }

  /**
   All bits of the significand are ones, apart from the zeros at its end.  The
   shift count is that of a machine that takes it modulo 32.
   */
  predicate AllOnes(w0: Word, w1: Word, scale: nat) {
    && w0 % 0x10_0000 == 0xF_FFFF
    && w1 == if scale > 0 && ExponentField(w0) <= SCALE
             then 0xFFFF_FFFF * Pow(2, (SCALE + 1 - ExponentField(w0)) % 32) % 0x1_0000_0000
             else 0xFFFF_FFFF
  }

  // ---- the decision ----

  ghost function WithinVerdict(below: bool, far: bool, w0: Word, w1: Word): Verdict {
    if !below && PowerOfTwo(w0, w1) && ExponentField(w0) > SCALE + 1 && far then Half else Accepted
  }

  ghost function TieVerdict(below: bool, w0: Word, w1: Word, scale: nat): Verdict {
    if below && AllOnes(w0, w1, scale) then Up
    else if !below && PowerOfTwo(w0, w1) then
      (if scale > 0 && ExponentField(w0) <= SCALE + 1 then (if ExponentField(w0) > 55 then Accepted else Zero) else Half)
    else if w1 % 2 == 0 then Accepted else if below then Up else Down
  }

  /** An error of less than half a unit: only below a power of two can a quarter of a unit be too much. */
  method WithinHalf(delta: Bigint, bs: Bigint, below: bool, w0: Word, w1: Word) returns (verdict: Verdict)
    requires delta.Normal() && bs.Normal() && bs.Value() > 0
    ensures verdict == WithinVerdict(below, 2 * delta.Value() > bs.Value(), w0, w1)
  {
    if below || w1 != 0 || w0 % 0x10_0000 != 0 || ExponentField(w0) <= SCALE + 1 {
      return Accepted;
    }
    if delta.wds <= 1 && delta.x[0] == 0 {
      assert delta.x[..1] == [delta.x[0]];
      ValOne(delta.x[..1]);
      return Accepted;
    }
    NotZero(delta);
    var twice := ShiftLeft(delta, 1);
    assert Pow(2, 1) == 2;
    var i := Cmp(twice, bs);
    verdict := if i > 0 then Half else Accepted;
  }

  lemma {:induction false} NotZero(b: Bigint)
    requires b.Normal() && !(b.wds <= 1 && b.x[0] == 0)
    ensures b.Value() > 0
  {
    var words: seq<nat> := b.x[..b.wds];
    ValTop(words);
    PlacePos(b.wds - 1);
  }

  /** An error of half a unit: the even neighbour is chosen. */
  method HalfWay(below: bool, w0: Word, w1: Word, scale: nat) returns (verdict: Verdict)
    ensures verdict == TieVerdict(below, w0, w1, scale)
  {
    if below {
      if AllOnes(w0, w1, scale) {
        return Up;
      }
    } else if w0 % 0x10_0000 == 0 && w1 == 0 {
      if scale > 0 && ExponentField(w0) <= SCALE + 1 {
        return if ExponentField(w0) > 55 then Accepted else Zero;
      }
      return Half;
    }
    if w1 % 2 == 0 {
      return Accepted;
    }
    verdict := if below then Up else Down;
  }

  // ---- signs of the error ----

  /** far says whether the error |f * 2^e - bd * 10^q| is more than half of 2^h. */
  ghost predicate HalfExceeded(f: nat, e: int, bd: nat, q: int, h: int, far: bool) {
    forall m: nat :: e + m >= 0 && h + m >= 0 ==>
      (far <==> 2 * Distance(Approximation(f, e, q, m), Exactly(bd, q, m)) > HalfUnit(h, q, m))
  }

  lemma {:induction false} DoubledSign(x: nat, y: nat, z: nat, x': nat, y': nat, z': nat, g: nat, g': nat)
    requires g > 0 && g' > 0 && x * g == x' * g' && y * g == y' * g' && z * g == z' * g'
    ensures 2 * Distance(x, y) > z <==> 2 * Distance(x', y') > z'
  {
    assert 2 * x * g == 2 * x' * g' && 2 * y * g == 2 * y' * g';
    SameSign(2 * x, 2 * y, z, 2 * x', 2 * y', z', g, g');
  }

  /** The comparison of the doubled difference with the half unit, in big numbers. */
  lemma {:induction false} DoubledExact(v: nat, f: nat, e: int, be: int, scale: nat, bd: nat, q: int, h: int, bb2: nat, bd2: nat, bs2: nat, far: bool)
    requires be >= e && f == v * Pow(2, be - e) && bb2 - bs2 == be - scale - h && bd2 - bb2 == q - be + scale
    requires far <==> 2 * Distance(v * Pow(5, Pos(-q)) * Pow(2, bb2), bd * Pow(5, Pos(q)) * Pow(2, bd2)) > Pow(5, Pos(-q)) * Pow(2, bs2)
    ensures HalfExceeded(f, e - scale, bd, q, h, far)
  {
    hide Pow, Approximation, Exactly, HalfUnit;
    forall m: nat | e - scale + m >= 0 && h + m >= 0
      ensures far <==> 2 * Distance(Approximation(f, e - scale, q, m), Exactly(bd, q, m)) > HalfUnit(h, q, m)
    {
      var a, b := CommonScale(v, f, e, be, scale, bd, q, h, m, bb2, bd2, bs2);
      DoubledSign(v * Pow(5, Pos(-q)) * Pow(2, bb2), bd * Pow(5, Pos(q)) * Pow(2, bd2), Pow(5, Pos(-q)) * Pow(2, bs2),
                  Approximation(f, e - scale, q, m), Exactly(bd, q, m), HalfUnit(h, q, m), a, b);
    }
  }

  // ---- rounding ----

  /** The decimal d * 10^q lies half way between the double and the next one in units of its last place. */
  ghost predicate TieAbove(f: nat, e: int, d: nat, q: int) {
    Num(d, q) * Pow(2, Pos(2 - e)) == (4 * f + 2) * (Pow(2, Pos(e - 2)) * Den(q))
  }

  /** And half way between the double and the one before. */
  ghost predicate TieBelow(f: nat, e: int, d: nat, q: int) {
    f > 0 && Num(d, q) * Pow(2, Pos(2 - e)) == (4 * f - 2) * (Pow(2, Pos(e - 2)) * Den(q))
  }

  /** Numerator and denominator of the decimal and of the double, in quarters of the last place. */
  ghost function Quarters(e: int, d: nat, q: int): (nat, nat) {
    (Num(d, q) * Pow(2, Pos(2 - e)), Pow(2, Pos(e - 2)) * Den(q))
  }

  /** An end of the rounding interval, or any other multiple of quarter units, against the decimal. */
  ghost predicate InInterval(f: nat, e: int, x: nat, y: nat) {
    if f % 2 == 0 then LowerEnd(f, e) * y <= x <= (4 * f + 2) * y else LowerEnd(f, e) * y < x < (4 * f + 2) * y
  }

  /** Rounding in these terms. */
  lemma {:induction false} InQuarters(f: nat, e: int, d: nat, q: int, x: nat, y: nat)
    requires f > 0 && (x, y) == Quarters(e, d, q)
    ensures y > 0 && (RoundsTo(f, e, Num(d, q), Den(q)) <==> InInterval(f, e, x, y))
  {
    var u, n := Pow(2, Pos(e - 2)), Den(q);
    MulAssoc(LowerEnd(f, e), u, n);
    MulAssoc(4 * f + 2, u, n);
    PowPos(2, Pos(e - 2));
    PowPos(10, Pos(-q));
    NumDen(d, q);
    MulStrict(0, u, n);
  }

  /** The signs of the comparisons in these terms. */
  lemma {:induction false} SignsInQuarters(f: nat, e: int, d: nat, q: int, i: int, below: bool, far: bool, x: nat, y: nat)
    requires f > 0 && ErrorSign(f, e, d, q, e - 1, i, below) && HalfExceeded(f, e, d, q, e - 1, far)
    requires (x, y) == Quarters(e, d, q)
    ensures below <==> 4 * f * y < x
    ensures Sign(i) == Sign(Distance(4 * f * y, x) - 2 * y)
    ensures far <==> Distance(4 * f * y, x) > y
  {
    IntervalScale(f, e, d, q);
    var m: nat := Pos(2 - e);
    assert Sign(i) == Sign(Excess(f, e, d, q, e - 1, m));
    var u, n := Pow(2, Pos(e - 2)), Den(q);
    MulAssoc(4 * f, u, n);
    MulAssoc(2, u, n);
  }

  lemma {:induction false} WithinHalfRounds(f: nat, e: int, x: nat, y: nat)
    requires f > 0 && y > 0 && Distance(4 * f * y, x) < 2 * y
    ensures InInterval(f, e, x, y) <==> !(Boundary(f, e) && x < 4 * f * y - y)
  {
    EndProducts(f, 1, y);
  }

  lemma {:induction false} TieAboveRounds(f: nat, e: int, x: nat, y: nat)
    requires f > 0 && y > 0 && x == (4 * f + 2) * y && !Boundary(f + 1, e)
    ensures InInterval(f, e, x, y) <==> f % 2 == 0
    ensures f % 2 == 1 ==> InInterval(f + 1, e, x, y)
  {
    EndProducts(f, 1, y);
    EndProducts(f + 1, 1, y);
    assert 4 * (f + 1) * y == 4 * f * y + 4 * y;
  }

  lemma {:induction false} TieBelowRounds(f: nat, e: int, x: nat, y: nat)
    requires f > 0 && y > 0 && x == (4 * f - 2) * y
    ensures InInterval(f, e, x, y) <==> f % 2 == 0 && !Boundary(f, e)
    ensures f % 2 == 1 && f > 1 ==> InInterval(f - 1, e, x, y)
  {
    EndProducts(f, 1, y);
    EndProducts(f - 1, 1, y);
    assert 4 * (f - 1) * y == 4 * f * y - 4 * y;
  }

  /** A quarter of the last place is half of it for half as large a last place. */
  lemma {:induction false} HalfQuarters(e: int, d: nat, q: int, x: nat, y: nat, x': nat, y': nat)
    requires (x, y) == Quarters(e, d, q) && (x', y') == Quarters(e - 1, d, q)
    ensures (x' == x && y == 2 * y') || (x' == 2 * x && y' == y)
  {
    hide Pow, Num, Den;
    if e >= 3 {
      PowTwice(e - 3);
      MulAssoc(2, Pow(2, e - 3), Den(q));
    } else {
      PowTwice(2 - e);
      MulAssoc(Num(d, q), 2, Pow(2, 2 - e));
    }
  }

  /** The double before a power of two is the nearest one to what lies around it. */
  lemma {:induction false} HalfRounds(f: nat, e: int, d: nat, q: int, x: nat, y: nat)
    requires Boundary(f, e) && (x, y) == Quarters(e, d, q)
    requires 4 * f * y - 2 * y <= x < 4 * f * y - y
    ensures RoundsTo(2 * f - 1, e - 1, Num(d, q), Den(q))
  {
    hide Pow, Num, Den, Quarters, RoundsTo;
    var (x', y') := Quarters(e - 1, d, q);
    InQuarters(2 * f - 1, e - 1, d, q, x', y');
    HalfQuarters(e, d, q, x, y, x', y');
    HalfProducts(f, x, y, x', y');
  }

  lemma {:induction false} HalfProducts(f: nat, x: nat, y: nat, x': nat, y': nat)
    requires (x' == x && y == 2 * y') || (x' == 2 * x && y' == y)
    requires y > 0 && 4 * f * y - 2 * y <= x < 4 * f * y - y && f > 0
    ensures (4 * (2 * f - 1) - 2) * y' < x' < (4 * (2 * f - 1) + 2) * y'
  {
    HalfEnds(f, y');
    FourTimes(f, y);
    if y == 2 * y' {
      Twice(f, y, y');
    }
  }

  lemma {:induction false} HalfEnds(f: nat, y: nat)
    requires f > 0
    ensures (4 * (2 * f - 1) - 2) * y == 8 * (f * y) - 6 * y
    ensures (4 * (2 * f - 1) + 2) * y == 8 * (f * y) - 2 * y
  {
  }

  lemma {:induction false} FourTimes(f: nat, y: nat)
    ensures 4 * f * y == 4 * (f * y)
  {
  }

  lemma {:induction false} Twice(f: nat, y: nat, y': nat)
    requires y == 2 * y'
    ensures f * y == 2 * (f * y')
  {
  }

  // ---- what the words tell ----

  /** The tests on words, in terms of the double. */
  ghost predicate WordsTell(w0: Word, w1: Word, scale: nat, f: nat, e: int) {
    && f > 0
    && (Boundary(f, e) <==> PowerOfTwo(w0, w1) && ExponentField(w0) > SCALE + 1)
    && (Zeros(w0, scale) == 0 ==> w1 % 2 == f % 2 && !Boundary(f + 1, e))
    && (Zeros(w0, scale) > 0 ==> w1 % 2 == 0 && e == -1074 && f < 0x10_0000_0000_0000)
    && (ExponentField(w0) <= SCALE + 1 ==> scale > 0)
    && (PowerOfTwo(w0, w1) && ExponentField(w0) <= SCALE + 1 ==> if ExponentField(w0) > 55 then f % 2 == 0 else f == 1)
    && (AllOnes(w0, w1, scale) ==> f % 2 == 1)
    && (f == 1 ==> PowerOfTwo(w0, w1) && ExponentField(w0) <= 55 && Zeros(w0, scale) > 0)
  }

  lemma {:induction false} NormalWords(w0: Word, w1: Word, scale: nat)
    requires ScaledUp(w0, scale) && Zeros(w0, scale) == 0
    ensures Units(w0, w1, scale) == Significand(w0, w1) && LastPlace(w0, scale) == Exponent(w0) - scale
    ensures WordsTell(w0, w1, scale, Units(w0, w1, scale), LastPlace(w0, scale))
  {
    assert Pow(2, 0) == 1;
    var f := Significand(w0, w1);
    assert f % 2 == w1 % 2;
    assert PowerOfTwo(w0, w1) <==> f == 0x10_0000_0000_0000;
    assert ExponentField(w0) >= SCALE + 1;
    if AllOnes(w0, w1, scale) {
      assert w1 == 0xFFFF_FFFF;
    }
  }

  lemma {:induction false} ExactQuotient(a: nat, b: nat)
    requires b > 0 && a % b == 0 && a > 0
    ensures a / b * b == a && a / b > 0
  {
  }

  /** A product with an even number above one. */
  lemma {:induction false} EvenProduct(f: nat, h: nat, s: nat)
    requires f * (2 * h) == s && h > 0 && f > 0
    ensures s == 2 * (f * h) && f <= f * h
  {
  }

  /** The zeros of a denormalised double bring its last place to -1074. */
  lemma {:induction false} PlaceOfZeros(w0: Word, scale: nat, c: nat)
    requires ScaledUp(w0, scale) && c == Zeros(w0, scale) > 0
    ensures scale == SCALE && c == SCALE + 1 - ExponentField(w0) && LastPlace(w0, scale) == -1074
    ensures ExponentField(w0) > 0
  {
  }

  lemma {:induction false} WholeUnits(w0: Word, w1: Word, scale: nat, f: nat, c: nat)
    requires Aligned(w0, w1, scale) && f == Units(w0, w1, scale) && c == Zeros(w0, scale) && Significand(w0, w1) > 0
    ensures f * Pow(2, c) == Significand(w0, w1) && f > 0
  {
    hide Pow, Significand, Exponent, ExponentField;
    ExactQuotient(Significand(w0, w1), Pow(2, c));
  }

  lemma {:induction false} Parity(w0: Word, w1: Word)
    ensures Significand(w0, w1) % 2 == w1 % 2
  {
  }

  /** The significand of a denormalised double is its units and zeros. */
  lemma {:induction false} FewUnits(w0: Word, w1: Word, scale: nat, f: nat, c: nat)
    requires ScaledUp(w0, scale) && Aligned(w0, w1, scale) && f == Units(w0, w1, scale) && c == Zeros(w0, scale) > 0
    ensures scale == SCALE && c == SCALE + 1 - ExponentField(w0) && LastPlace(w0, scale) == -1074
    ensures f * Pow(2, c) == Significand(w0, w1) && 0 < f < 0x10_0000_0000_0000 && c <= 52
    ensures w1 % 2 == 0
  {
    hide Pow, Significand, ExponentField, Aligned, ScaledUp, Zeros, Units, LastPlace;
    PlaceOfZeros(w0, scale, c);
    WholeUnits(w0, w1, scale, f, c);
    Parity(w0, w1);
    FewBits(f, c, Significand(w0, w1));
  }

  lemma {:induction false} FewBits(f: nat, c: nat, s: nat)
    requires f * Pow(2, c) == s < 0x20_0000_0000_0000 && f > 0 && c > 0
    ensures f < 0x10_0000_0000_0000 && c <= 52 && s % 2 == 0
  {
    hide Pow;
    PowTwice(c - 1);
    PowPos(2, c - 1);
    EvenProduct(f, Pow(2, c - 1), s);
    if c > 52 {
      Power52();
      PowTwice(52);
      PowMono(2, 53, c);
      MulMono(1, f, Pow(2, c));
    }
  }

  lemma {:induction false} PowTwice(n: nat)
    ensures Pow(2, n + 1) == 2 * Pow(2, n)
  {
  }

  lemma {:induction false} SmallPowersOfTwo(w0: Word, w1: Word, f: nat, c: nat)
    requires f * Pow(2, c) == Significand(w0, w1) && f > 0 && 0 < c <= 52 && c == SCALE + 1 - ExponentField(w0)
    ensures PowerOfTwo(w0, w1) ==> if ExponentField(w0) > 55 then f % 2 == 0 else f == 1
    ensures f == 1 ==> PowerOfTwo(w0, w1) && ExponentField(w0) <= 55
  {
    hide Pow;
    Power52();
    PowPos(2, c);
    if PowerOfTwo(w0, w1) {
      PowAdd(2, 52 - c, c);
      MulCancel(f, Pow(2, 52 - c), Pow(2, c));
      PowOne(2);
      if c < 52 {
        PowTwice(51 - c);
      }
    }
    if f == 1 {
      if c < 52 {
        PowMono(2, c, 51);
        PowTwice(51);
      }
      assert c == 52;
    }
  }

  lemma {:induction false} PowOne(b: nat)
    ensures Pow(b, 0) == 1
  {
  }

  /** Ones above the zeros are one unit of the zeros short of a power of two. */
  lemma {:induction false} OnesWords(w0: Word, w1: Word, scale: nat, c: nat, p: nat)
    requires 0 < c == SCALE + 1 - ExponentField(w0) <= 52 && scale > 0 && AllOnes(w0, w1, scale)
    requires p == Pow(2, c % 32) && 0 < p < 0x1_0000_0000
    ensures w1 == 0x1_0000_0000 - p && Significand(w0, w1) == 0x20_0000_0000_0000 - p
  {
    hide Pow;
    WrapOnes(p);
  }

  /** They make an odd number. */
  lemma {:induction false} OnesOdd(w0: Word, w1: Word, scale: nat, f: nat, c: nat)
    requires f * Pow(2, c) == Significand(w0, w1) && 0 < c <= 52 && c == SCALE + 1 - ExponentField(w0) && scale > 0
    requires AllOnes(w0, w1, scale)
    ensures f % 2 == 1
  {
    hide Pow, Significand, ExponentField, AllOnes;
    var p := Pow(2, c % 32);
    SmallPower(c % 32);
    OnesWords(w0, w1, scale, c, p);
    if c < 32 {
      OnesAbove(f, c, p, Significand(w0, w1));
      PowTwice(52 - c);
    } else {
      ManyZeros(w0, w1, f, c);
    }
  }

  lemma {:induction false} SmallPower(r: nat)
    requires r < 32
    ensures 0 < Pow(2, r) < 0x1_0000_0000
  {
    hide Pow;
    Pow32();
    PowPos(2, r);
    PowMono(2, r, 31);
    PowTwice(31);
  }

  /** At least 32 zeros fill the low word. */
  lemma {:induction false} ManyZeros(w0: Word, w1: Word, f: nat, c: nat)
    requires f * Pow(2, c) == Significand(w0, w1) && c >= 32
    ensures w1 == 0
  {
    hide Pow, Significand;
    Pow32();
    PowAdd(2, 32, c - 32);
    FactorOut(f, Pow(2, 32), Pow(2, c - 32));
    LowWordZero(w0, w1, f * Pow(2, c - 32));
  }

  lemma {:induction false} OnesAbove(f: nat, c: nat, p: nat, s: nat)
    requires p == Pow(2, c) && 0 < c < 32 && f * p == s && s == 0x20_0000_0000_0000 - p && p > 0
    ensures f + 1 == Pow(2, 53 - c)
  {
    hide Pow;
    FullPower(c, p);
    OneLess(f, Pow(2, 53 - c), p, s);
  }

  lemma {:induction false} FullPower(c: nat, p: nat)
    requires c < 32 && p == Pow(2, c)
    ensures Pow(2, 53 - c) * p == 0x20_0000_0000_0000
  {
    hide Pow;
    Power52();
    PowTwice(52);
    PowAdd(2, 53 - c, c);
  }

  lemma {:induction false} OneLess(f: nat, n: nat, p: nat, s: nat)
    requires f * p == s && n * p == s + p && p > 0
    ensures f + 1 == n
  {
    assert (f + 1) * p == f * p + p;
    MulCancel(f + 1, n, p);
  }

  lemma {:induction false} FactorOut(f: nat, w: nat, p: nat)
    ensures f * (w * p) == f * p * w
  {
  }

  lemma {:induction false} WrapOnes(p: nat)
    requires 0 < p < 0x1_0000_0000
    ensures 0xFFFF_FFFF * p % 0x1_0000_0000 == 0x1_0000_0000 - p
  {
    assert 0xFFFF_FFFF * p == (p - 1) * 0x1_0000_0000 + (0x1_0000_0000 - p);
  }

  lemma {:induction false} LowWordZero(w0: Word, w1: Word, g: nat)
    requires Significand(w0, w1) == g * 0x1_0000_0000
    ensures w1 == 0
  {
  }

  lemma {:induction false} DenormalWords(w0: Word, w1: Word, scale: nat)
    requires ScaledUp(w0, scale) && Aligned(w0, w1, scale) && Zeros(w0, scale) > 0
    ensures WordsTell(w0, w1, scale, Units(w0, w1, scale), LastPlace(w0, scale))
  {
    var f, c := Units(w0, w1, scale), Zeros(w0, scale);
    FewUnits(w0, w1, scale, f, c);
    SmallPowersOfTwo(w0, w1, f, c);
    if AllOnes(w0, w1, scale) {
      OnesOdd(w0, w1, scale, f, c);
    }
  }

  // ---- the theorem ----

  /**
   The decimal lies half way between a denormalised double with an odd significand
   and a neighbour, yet the double is accepted: the test for an even significand
   looks at a bit of the scaled significand that is zero.
   */
  ghost predicate Mistaken(w0: Word, w1: Word, scale: nat, d: nat, q: int) {
    var f, e := Units(w0, w1, scale), LastPlace(w0, scale);
    Zeros(w0, scale) > 0 && f % 2 == 1
    && ((TieAbove(f, e, d, q) && !AllOnes(w0, w1, scale)) || (TieBelow(f, e, d, q) && f != 1))
  }

  /** The decimal is off by more than half a unit in the last place of the double. */
  ghost predicate FarOff(f: nat, e: int, d: nat, q: int) {
    var (x, y) := Quarters(e, d, q);
    Distance(4 * f * y, x) > 2 * y
  }

  /** Where the verdict moves the double to. */
  ghost predicate Moved(verdict: Verdict, f: nat, e: int, d: nat, q: int) {
    match verdict
    case Accepted => true
    case Up => RoundsTo(f + 1, e, Num(d, q), Den(q))
    case Down => f > 1 && RoundsTo(f - 1, e, Num(d, q), Den(q))
    case Half => Boundary(f, e) && RoundsTo(2 * f - 1, e - 1, Num(d, q), Den(q))
    case Zero => f == 1 && e == -1074 && TieBelow(f, e, d, q)
    case Far => FarOff(f, e, d, q)
  }

  /** The verdict is right, or it is the one mistake. */
  ghost predicate Right(verdict: Verdict, w0: Word, w1: Word, scale: nat, d: nat, q: int) {
    var f, e := Units(w0, w1, scale), LastPlace(w0, scale);
    && (verdict.Accepted? <==> RoundsTo(f, e, Num(d, q), Den(q)) || Mistaken(w0, w1, scale, d, q))
    && (Mistaken(w0, w1, scale, d, q) ==> !RoundsTo(f, e, Num(d, q), Den(q)))
    && Moved(verdict, f, e, d, q) && (FarOff(f, e, d, q) ==> verdict.Far?)
  }

  lemma {:induction false} WithinRight(w0: Word, w1: Word, scale: nat, d: nat, q: int, i: int, below: bool, far: bool, f: nat, e: int)
    requires f == Units(w0, w1, scale) && e == LastPlace(w0, scale) && WordsTell(w0, w1, scale, f, e)
    requires ErrorSign(f, e, d, q, e - 1, i, below) && HalfExceeded(f, e, d, q, e - 1, far) && i < 0
    ensures Right(WithinVerdict(below, far, w0, w1), w0, w1, scale, d, q)
  {
    hide ErrorSign, HalfExceeded, RoundsTo, InInterval, Zeros, Units, LastPlace, AllOnes;
    var (x, y) := Quarters(e, d, q);
    SignsInQuarters(f, e, d, q, i, below, far, x, y);
    InQuarters(f, e, d, q, x, y);
    WithinHalfRounds(f, e, x, y);
    EndProducts(f, 1, y);
    if Boundary(f, e) && !below && far {
      HalfRounds(f, e, d, q, x, y);
    }
  }

  lemma {:induction false} TieRight(w0: Word, w1: Word, scale: nat, d: nat, q: int, i: int, below: bool, far: bool, f: nat, e: int)
    requires f == Units(w0, w1, scale) && e == LastPlace(w0, scale) && WordsTell(w0, w1, scale, f, e)
    requires ErrorSign(f, e, d, q, e - 1, i, below) && HalfExceeded(f, e, d, q, e - 1, far) && i == 0
    ensures Right(TieVerdict(below, w0, w1, scale), w0, w1, scale, d, q)
  {
    hide ErrorSign, HalfExceeded, RoundsTo, InInterval, Zeros, Units, LastPlace, AllOnes;
    var (x, y) := Quarters(e, d, q);
    SignsInQuarters(f, e, d, q, i, below, far, x, y);
    InQuarters(f, e, d, q, x, y);
    EndProducts(f, 1, y);
    if below {
      TieAboveRounds(f, e, x, y);
      InQuarters(f + 1, e, d, q, x, y);
    } else {
      TieBelowRounds(f, e, x, y);
      if f > 1 {
        InQuarters(f - 1, e, d, q, x, y);
      }
      if Boundary(f, e) {
        HalfRounds(f, e, d, q, x, y);
      }
    }
  }

  lemma {:induction false} FarRight(w0: Word, w1: Word, scale: nat, d: nat, q: int, i: int, below: bool, far: bool, f: nat, e: int)
    requires f == Units(w0, w1, scale) && e == LastPlace(w0, scale) && WordsTell(w0, w1, scale, f, e)
    requires ErrorSign(f, e, d, q, e - 1, i, below) && HalfExceeded(f, e, d, q, e - 1, far) && i > 0
    ensures Right(Far, w0, w1, scale, d, q)
  {
    hide ErrorSign, HalfExceeded, RoundsTo, Zeros, Units, LastPlace, AllOnes;
    var (x, y) := Quarters(e, d, q);
    SignsInQuarters(f, e, d, q, i, below, far, x, y);
    InQuarters(f, e, d, q, x, y);
    EndProducts(f, 1, y);
  }

  ghost function VerdictOf(i: int, below: bool, far: bool, w0: Word, w1: Word, scale: nat): Verdict {
    if i < 0 then WithinVerdict(below, far, w0, w1) else if i == 0 then TieVerdict(below, w0, w1, scale) else Far
  }

  /** The comparisons of the big numbers lead to the right verdict. */
  lemma {:induction false} DecisionRight(w0: Word, w1: Word, scale: nat, d: nat, q: int, v: nat, be: int, bb2: nat, bd2: nat, bs2: nat,
                                         i: int, below: bool, far: bool, x: nat, y: nat, z: nat)
    requires ScaledUp(w0, scale) && Aligned(w0, w1, scale) && be >= Exponent(w0) && be - scale >= -1074
    requires Significand(w0, w1) == v * Pow(2, be - Exponent(w0))
    requires bb2 - bs2 == be - scale - HalfUlp(w0, scale) && bd2 - bb2 == q - be + scale
    requires x == v * Pow(5, Pos(-q)) * Pow(2, bb2) && y == d * Pow(5, Pos(q)) * Pow(2, bd2) && z == Pow(5, Pos(-q)) * Pow(2, bs2)
    requires Sign(i) == Sign(Distance(x, y) - z) && (below <==> x < y) && (far <==> 2 * Distance(x, y) > z)
    ensures Right(VerdictOf(i, below, far, w0, w1, scale), w0, w1, scale, d, q)
  {
    hide Pow, Right, ErrorSign, HalfExceeded, Units, LastPlace, Aligned, WordsTell;
    var f, e := Units(w0, w1, scale), LastPlace(w0, scale);
    UnitsScale(w0, w1, scale, v, be);
    ErrorSignExact(v, f, e + scale, be, scale, d, q, e - 1, bb2, bd2, bs2, i, below);
    DoubledExact(v, f, e + scale, be, scale, d, q, e - 1, bb2, bd2, bs2, far);
    WordsTold(w0, w1, scale);
    if i < 0 {
      WithinRight(w0, w1, scale, d, q, i, below, far, f, e);
    } else if i == 0 {
      TieRight(w0, w1, scale, d, q, i, below, far, f, e);
    } else {
      FarRight(w0, w1, scale, d, q, i, below, far, f, e);
    }
  }

  /** The decision by the difference and the half unit. */
  method DecideBy(bb: Bigint, bd: Bigint, bs: Bigint, w0: Word, w1: Word, scale: nat) returns (verdict: Verdict, i: int)
    requires bb.Normal() && bd.Normal() && bs.Normal() && bs.Value() > 0
    ensures Sign(i) == Sign(Distance(bb.Value(), bd.Value()) - bs.Value())
    ensures verdict == VerdictOf(i, bb.Value() < bd.Value(), 2 * Distance(bb.Value(), bd.Value()) > bs.Value(), w0, w1, scale)
  {
    hide WithinVerdict, TieVerdict;
    var delta := Diff(bb, bd);
    var below := delta.sign;
    delta.sign := false;
    i := Cmp(delta, bs);
    if i < 0 {
      verdict := WithinHalf(delta, bs, below, w0, w1);
    } else if i == 0 {
      verdict := HalfWay(below, w0, w1, scale);
    } else {
      verdict := Far;
    }
  }

  /**
   The decision about an approximation: the double is accepted exactly if the
   decimal rounds to it, but for the one mistake; otherwise it moves to the double
   that the decimal rounds to, or is too far away.
   */
  method Decide(cache: Cache, bd0: Bigint, q: int, w0: Word, w1: Word, scale: nat) returns (verdict: Verdict)
    requires cache.Valid() && bd0.Normal() && bd0.Value() > 0
    requires ScaledUp(w0, scale) && Aligned(w0, w1, scale)
    modifies cache
    ensures cache.Valid() && Right(verdict, w0, w1, scale, old(bd0.Value()), q)
  {
    hide Pow, Right, Aligned, VerdictOf;
    ghost var d := bd0.Value();
    Positive(w0, w1);
    var v, be, bb2, bd2, bs2 := ApproximationExponents(w0, w1, q, scale);
    ghost var vv := v.Value();
    var bb, bd, bs := ErrorNumbers(cache, bd0, q, v, bb2, bd2, bs2);
    var i;
    verdict, i := DecideBy(bb, bd, bs, w0, w1, scale);
    ghost var x, y, z := bb.Value(), bd.Value(), bs.Value();
    DecisionRight(w0, w1, scale, d, q, vv, be, bb2, bd2, bs2, i, x < y, 2 * Distance(x, y) > z, x, y, z);
  }

  /** The least double, scaled up, is a power of two. */
  lemma {:induction false} LeastWords(w0: Word, w1: Word)
    requires w0 == 0x370_0000 && w1 == 0
    ensures ScaledUp(w0, SCALE) && Aligned(w0, w1, SCALE) && Units(w0, w1, SCALE) == 1 && LastPlace(w0, SCALE) == -1074
    ensures Zeros(w0, SCALE) > 0 && !AllOnes(w0, w1, SCALE)
  {
    hide Pow;
    Power52();
  }

  /** Three half units are half way between one and two, and two is even. */
  lemma {:induction false} ThreeHalves(d: nat, q: int, m: nat, e: int)
    requires e + m == 0 && m > 2 && q <= 0 && 2 * d * Pow(2, m) == 3 * Pow(10, -q)
    ensures TieAbove(1, e, d, q) && RoundsTo(2, e, Num(d, q), Den(q))
  {
    hide Pow, RoundsTo;
    assert Num(d, q) == d && Den(q) == Pow(10, -q) by {
      NumDen(d, q);
      PowOne(10);
    }
    var x, y := d * Pow(2, m + 2), Den(q);
    PowOne(2);
    PowTwice(m);
    PowTwice(m + 1);
    FourTimes(d, Pow(2, m));
    assert (x, y) == Quarters(e, d, q);
    InQuarters(2, e, d, q, x, y);
    EndProducts(2, 1, y);
  }

  /** Three half units of the least double round to two of them, but the least double, scaled up, is accepted. */
  lemma {:induction false} LeastTie(d: nat, q: int, w0: Word, w1: Word, e: int, m: nat)
    requires e == -1074 && m == 1074 && w0 == 0x370_0000 && w1 == 0
    requires q <= 0 && 2 * d * Pow(2, m) == 3 * Pow(10, -q)
    ensures ScaledUp(w0, SCALE) && Aligned(w0, w1, SCALE) && Units(w0, w1, SCALE) == 1 && LastPlace(w0, SCALE) == e
    ensures Mistaken(w0, w1, SCALE, d, q) && RoundsTo(2, e, Num(d, q), Den(q))
  {
    hide Pow, Num, Den, RoundsTo, TieAbove, TieBelow, ScaledUp, Aligned, Units, LastPlace, Zeros, AllOnes;
    LeastWords(w0, w1);
    ThreeHalves(d, q, m, e);
  }

  /** 3 * 5^1075 * 10^-1075 is such a decimal. */
  lemma {:induction false} LeastTieExists(m: nat)
    requires m == 1074
    ensures 2 * (3 * Pow(5, m + 1)) * Pow(2, m) == 3 * Pow(10, m + 1)
  {
    hide Pow;
    Power10(m + 1);
    PowTwice(m);
    TieProduct(Pow(5, m + 1), Pow(2, m));
  }

  lemma {:induction false} TieProduct(a: nat, b: nat)
    ensures 2 * (3 * a) * b == 3 * (2 * b * a)
  {
  }

  // ---- printing and reading back ----

  /** The first nine digits, or all if there are fewer, as a word. */
  method FirstDigits(text: string) returns (y: Word)
    requires IsDigits(text)
    ensures y == DecVal(text[..if |text| < 9 then |text| else 9])
  {
    y := 0;
    var n := if |text| < 9 then |text| else 9;
    var i := 0;
    while i < n
      invariant 0 <= i <= n && y == DecVal(text[..i])
    {
      assert text[..i + 1] == text[..i] + [text[i]];
      DecSnoc(text[..i], text[i]);
      NineDigits(text[..i + 1]);
      y := 10 * y + Digit(text[i]);
      i := i + 1;
    }
  }

  lemma {:induction false} NineDigits(s: string)
    requires |s| <= 9
    ensures DecVal(s) < 0x1_0000_0000
  {
    DecBounds(s);
    PowMono(10, |s|, 9);
    assert Pow(10, 4) == 10000 && Pow(10, 5) == 100000;
    PowAdd(10, 4, 5);
  }

  /** A decimal that rounds to the double is accepted, and so are its shortest digits. */
  lemma {:induction false} ShortestAccepted(w0: Word, w1: Word, scale: nat, digits: seq<char>, point: int, verdict: Verdict)
    requires ShortestDecimal(Units(w0, w1, scale), LastPlace(w0, scale), digits, point)
    requires Right(verdict, w0, w1, scale, DecVal(digits), point - |digits|)
    ensures verdict.Accepted?
  {
  }

  /**
   A double is printed, its digits are read, and the double itself, given as the
   approximation in the words s0 and s1, is accepted.
   */
  method PrintedParsesBack(cache: Cache, w0: Word, w1: Word, k0: int, estimated: bool, buf: array<char>, s0: Word, s1: Word, scale: nat)
      returns (verdict: Verdict)
    requires cache.Valid() && buf.Length >= 18 && Significand(w0, w1) > 0
    requires Estimate(Significand(w0, w1), Exponent(w0), k0, estimated)
    requires ScaledUp(s0, scale) && Aligned(s0, s1, scale)
    requires Units(s0, s1, scale) == Significand(w0, w1) && LastPlace(s0, scale) == Exponent(w0)
    modifies cache, buf
    ensures cache.Valid() && verdict.Accepted?
  {
    hide Pow, Right, Units, LastPlace, Aligned, RoundsTo, NoFarther, Estimate, DecVal;
    var n, point := DtoaShortest(cache, w0, w1, k0, estimated, buf);
    var text: string := buf[..n];
    var y := FirstDigits(text);
    assert Plain(text, n, n) == text;
    var bd0 := S2b(text, n, n, y);
    PositiveDigits(text);
    verdict := Decide(cache, bd0, point - n, s0, s1, scale);
    ShortestAccepted(s0, s1, scale, text, point, verdict);
  }

  lemma {:induction false} PositiveDigits(s: string)
    requires Significant(s)
    ensures DecVal(s) > 0
  {
    DecBounds(s);
    PowPos(10, |s| - 1);
  }

  lemma {:induction false} WordsTold(w0: Word, w1: Word, scale: nat)
    requires ScaledUp(w0, scale) && Aligned(w0, w1, scale)
    ensures WordsTell(w0, w1, scale, Units(w0, w1, scale), LastPlace(w0, scale))
  {
    if Zeros(w0, scale) == 0 {
      NormalWords(w0, w1, scale);
    } else {
      DenormalWords(w0, w1, scale);
    }
  }

  lemma {:induction false} Positive(w0: Word, w1: Word)
    requires ExponentField(w0) > 0
    ensures Significand(w0, w1) > 0
  {
  }

  /** The odd number of the conversion, in units of the last place. */
  lemma {:induction false} UnitsScale(w0: Word, w1: Word, scale: nat, v: nat, be: int)
    requires ScaledUp(w0, scale) && Aligned(w0, w1, scale) && be >= Exponent(w0) && be - scale >= -1074
    requires Significand(w0, w1) == v * Pow(2, be - Exponent(w0))
    ensures be >= LastPlace(w0, scale) + scale && HalfUlp(w0, scale) == LastPlace(w0, scale) - 1
    ensures Units(w0, w1, scale) == v * Pow(2, be - (LastPlace(w0, scale) + scale))
  {
    hide Pow;
    var c := Zeros(w0, scale);
    var n: nat := be - (LastPlace(w0, scale) + scale);
    PowPos(2, c);
    PowAdd(2, n, c);
    MulAssoc(v, Pow(2, n), Pow(2, c));
    ExactQuotient(Significand(w0, w1), Pow(2, c));
    MulCancel(Units(w0, w1, scale), v * Pow(2, n), Pow(2, c));
  }
}
