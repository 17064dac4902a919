/**
 Which decimals round to a double, and which of them is nearest to it: the
 double-precision meaning of the scaled intervals.
 */
module DoubleRounding {
  import opened Words
  import opened Decimals
  import opened RoundingInterval
  import opened Scaling

  /** The ends of the rounding interval of f * 2^e, in units of 2^(e-2). */
  ghost function LowerEnd(f: nat, e: int): int {
    if Boundary(f, e) then 4 * f - 1 else 4 * f - 2
  }

  ghost function UpperEnd(f: nat): nat {
    4 * f + 2
  }

  /** num / den is nearest to f * 2^e among the doubles; half way, the even significand wins. */
  ghost predicate RoundsTo(f: nat, e: int, num: nat, den: nat) {
    var u, v := Pow(2, Pos(e - 2)), Pow(2, Pos(2 - e));
    if f % 2 == 0 then LowerEnd(f, e) * u * den <= num * v <= UpperEnd(f) * u * den
    else LowerEnd(f, e) * u * den < num * v < UpperEnd(f) * u * den
  }

  /** The distance of num / den and f * 2^e, times den and a power of two. */
  ghost function DoubleDistance(f: nat, e: int, num: nat, den: nat): nat {
    Distance(num * Pow(2, Pos(-e)), f * Pow(2, Pos(e)) * den)
  }

  /** num / den is at least as near to f * 2^e as num2 / den2. */
  ghost predicate NoFarther(f: nat, e: int, num: nat, den: nat, num2: nat, den2: nat) {
    DoubleDistance(f, e, num, den) * den2 <= DoubleDistance(f, e, num2, den2) * den
  }

  /**
   0.digits * 10^point rounds to f * 2^e, no decimal with fewer digits does, and
   none with as many digits is nearer.
   */
  ghost predicate ShortestDecimal(f: nat, e: int, digits: seq<char>, point: int) {
    var n, c0, q0 := |digits|, DecVal(digits), point - |digits|;
    Significant(digits)
    && RoundsTo(f, e, Num(c0, q0), Den(q0))
    && (forall c: nat, q: int :: c < Pow(10, n - 1) ==> !RoundsTo(f, e, Num(c, q), Den(q)))
    && (forall c: nat, q: int :: c < Pow(10, n) && RoundsTo(f, e, Num(c, q), Den(q)) ==>
          NoFarther(f, e, Num(c0, q0), Den(q0), Num(c, q), Den(q)))
  }

  // ---- fractions ----

  lemma {:induction false} CompareFractions(l: int, num: nat, den: nat, v: nat, f: nat)
    requires f > 0
    ensures l * (den * f) < num * f * v <==> l * den < num * v
    ensures l * (den * f) <= num * f * v <==> l * den <= num * v
    ensures num * f * v < l * (den * f) <==> num * v < l * den
    ensures num * f * v <= l * (den * f) <==> num * v <= l * den
  {
  }

  lemma {:induction false} RoundsToScale(f: nat, e: int, num: nat, den: nat, g: nat)
    requires g > 0
    ensures RoundsTo(f, e, num * g, den * g) <==> RoundsTo(f, e, num, den)
  {
    var u, v := Pow(2, Pos(e - 2)), Pow(2, Pos(2 - e));
    CompareFractions(LowerEnd(f, e) * u, num, den, v, g);
    CompareFractions(UpperEnd(f) * u, num, den, v, g);
  }

  lemma {:induction false} DoubleDistanceScale(f: nat, e: int, num: nat, den: nat, g: nat)
    ensures DoubleDistance(f, e, num * g, den * g) == DoubleDistance(f, e, num, den) * g
  {
    var a, b := Pow(2, Pos(-e)), f * Pow(2, Pos(e));
    assert num * g * a == num * a * g;
    MulAssoc(b, den, g);
    DistanceScale(num * a, b * den, g);
  }

  /** Scaling the first fraction, or the second, changes nothing. */
  lemma {:induction false} NoFartherScale(f: nat, e: int, num: nat, den: nat, num2: nat, den2: nat, g: nat, h: nat)
    requires g > 0 && h > 0
    ensures NoFarther(f, e, num * g, den * g, num2 * h, den2 * h) <==> NoFarther(f, e, num, den, num2, den2)
  {
    DoubleDistanceScale(f, e, num, den, g);
    DoubleDistanceScale(f, e, num2, den2, h);
    var a, b := DoubleDistance(f, e, num, den), DoubleDistance(f, e, num2, den2);
    FourFactors(a, den2, g, h);
    FourFactors(b, den, h, g);
    MulStrict(0, g, h);
    MulCancel(a * den2, b * den, g * h);
  }

  lemma {:induction false} FourFactors(a: nat, b: nat, g: nat, h: nat)
    ensures a * g * (b * h) == a * b * (g * h)
  {
  }

  /** c * 10^q from c * 10^(q-k) and 10^k, as fractions with a common factor. */
  lemma {:induction false} ShiftDecimal(c: nat, q: int, k: int)
    ensures Num(c, q - k) * Pow(10, Pos(k)) * Den(q) == Num(c, q) * (Den(q - k) * Pow(10, Pos(-k)))
  {
    var l, r := Pos(q - k) + Pos(k) + Pos(-q), Pos(q) + Pos(k - q) + Pos(-k);
    assert l == r;
    PowAdd(10, Pos(q - k), Pos(k));
    PowAdd(10, Pos(q - k) + Pos(k), Pos(-q));
    PowAdd(10, Pos(q), Pos(k - q));
    PowAdd(10, Pos(q) + Pos(k - q), Pos(-k));
    NumDen(c, q);
    NumDen(c, q - k);
    DecimalProducts(c, Pow(10, Pos(q - k)), Pow(10, Pos(k)), Pow(10, Pos(-q)), Pow(10, Pos(q)), Pow(10, Pos(k - q)), Pow(10, Pos(-k)));
  }

  lemma {:induction false} NumDen(c: nat, q: int)
    ensures Num(c, q) == c * Pow(10, Pos(q)) && Den(q) == Pow(10, Pos(-q))
  {
  }

  lemma {:induction false} DecimalProducts(c: nat, x: nat, y: nat, z: nat, u: nat, v: nat, w: nat)
    requires x * y * z == u * v * w
    ensures c * x * y * z == c * u * (v * w)
  {
  }

  /** Equal fractions round alike. */
  lemma {:induction false} SameFraction(f: nat, e: int, num: nat, den: nat, num2: nat, den2: nat)
    requires den > 0 && den2 > 0 && num * den2 == num2 * den
    ensures RoundsTo(f, e, num, den) <==> RoundsTo(f, e, num2, den2)
  {
    RoundsToScale(f, e, num, den, den2);
    RoundsToScale(f, e, num2, den2, den);
    assert den * den2 == den2 * den;
  }

  lemma {:induction false} SameFractions(f: nat, e: int, a: nat, b: nat, a': nat, b': nat, c: nat, d: nat, c': nat, d': nat)
    requires b > 0 && b' > 0 && a * b' == a' * b
    requires d > 0 && d' > 0 && c * d' == c' * d
    ensures NoFarther(f, e, a, b, c, d) <==> NoFarther(f, e, a', b', c', d')
  {
    NoFartherScale(f, e, a, b, c, d, b', d');
    NoFartherScale(f, e, a', b', c', d', b, d);
    assert b * b' == b' * b && d * d' == d' * d;
  }

  // ---- from the scaled number to the double ----

  /** How often the scaled number is taken to count it in units of the half gap below. */
  ghost function Times(f: nat, e: int): nat {
    if Boundary(f, e) then 1 else 2
  }

  lemma {:induction false} Ends(t: Scaled, f: nat, e: int, k: int)
    requires ScaledFor(t, f, e, k) && f > 0
    ensures Times(f, e) * (t.n - t.lo) == LowerEnd(f, e) * t.lo
    ensures Times(f, e) * (t.n + t.hi) == UpperEnd(f) * t.lo
    ensures Times(f, e) * t.n == 4 * f * t.lo
  {
  }

  /** The powers of two of the interval's unit. */
  lemma {:induction false} UnitPowers(e: int)
    ensures 4 * Pow(2, Pos(-e)) * Pow(2, Pos(e - 2)) == Pow(2, Pos(e)) * Pow(2, Pos(2 - e))
  {
  }

  /** Cancelling the significand and a power of two from the ratio. */
  lemma {:induction false} CancelRatio(n: nat, s: nat, f: nat, g: nat, a: nat, p: nat, p': nat, ten: nat, ten': nat, u: nat, v: nat)
    requires n * (p' * ten) == s * (f * (p * ten')) && a * n == 4 * f * g && f > 0 && p > 0
    requires 4 * p' * u == p * v
    ensures g * (v * ten) == a * s * (u * ten')
  {
    CancelSignificand(n, s, f, g, a, p, p' * ten, ten');
    CancelPower(g, a * s, p, p', ten, ten', u, v);
  }

  lemma {:induction false} CancelSignificand(n: nat, s: nat, f: nat, g: nat, a: nat, p: nat, x: nat, ten': nat)
    requires n * x == s * (f * (p * ten')) && a * n == 4 * f * g && f > 0
    ensures 4 * g * x == a * s * (p * ten')
  {
  }

  lemma {:induction false} CancelPower(g: nat, m: nat, p: nat, p': nat, ten: nat, ten': nat, u: nat, v: nat)
    requires 4 * g * (p' * ten) == m * (p * ten') && 4 * p' * u == p * v && p > 0
    ensures g * (v * ten) == m * (u * ten')
  {
  }

  /** Comparing with the ends of both intervals. */
  lemma {:induction false} Transfer(l: int, g: nat, y: nat, m: nat, x: nat, ub: nat, va: nat)
    requires g > 0 && ub > 0 && g * va == m * ub
    ensures l * g * y < m * x <==> l * ub * y < va * x
    ensures l * g * y <= m * x <==> l * ub * y <= va * x
    ensures m * x < l * g * y <==> va * x < l * ub * y
    ensures m * x <= l * g * y <==> va * x <= l * ub * y
  {
  }

  /** A fraction is in the scaled interval exactly when its 10^k-fold rounds to the double. */
  lemma {:induction false} InsideRounds(t: Scaled, f: nat, e: int, k: int, x: nat, y: nat)
    requires ScaledFor(t, f, e, k) && f > 0 && t.lo > 0
    ensures Inside(t, x, y) <==> RoundsTo(f, e, x * Pow(10, Pos(k)), y * Pow(10, Pos(-k)))
  {
    var u, v := Pow(2, Pos(e - 2)), Pow(2, Pos(2 - e));
    var ten, ten', a := Pow(10, Pos(k)), Pow(10, Pos(-k)), Times(f, e);
    Ends(t, f, e, k);
    UnitPowers(e);
    PowPos(2, Pos(e));
    PowPos(2, Pos(e - 2));
    PowPos(10, Pos(-k));
    CancelRatio(t.n, t.s, f, t.lo, a, Pow(2, Pos(e)), Pow(2, Pos(-e)), ten, ten', u, v);
    MulStrict(0, u, ten');
    EndRounds(t.n - t.lo, LowerEnd(f, e), t.lo, a, t.s, x, y, u, v, ten, ten');
    EndRounds(t.n + t.hi, UpperEnd(f), t.lo, a, t.s, x, y, u, v, ten, ten');
  }

  /** One end of the interval. */
  lemma {:induction false} EndRounds(end: int, l: int, g: nat, a: nat, s: nat, x: nat, y: nat, u: nat, v: nat, ten: nat, ten': nat)
    requires a > 0 && g > 0 && u * ten' > 0 && a * end == l * g && g * (v * ten) == a * s * (u * ten')
    ensures end * y < x * s <==> l * u * (y * ten') < x * ten * v
    ensures end * y <= x * s <==> l * u * (y * ten') <= x * ten * v
    ensures x * s < end * y <==> x * ten * v < l * u * (y * ten')
    ensures x * s <= end * y <==> x * ten * v <= l * u * (y * ten')
  {
    Transfer(l, g, y, a * s, x, u * ten', v * ten);
    assert l * (u * ten') * y == l * u * (y * ten');
    assert v * ten * x == x * ten * v;
    assert l * g * y == end * y * a by { assert a * end * y == end * y * a; }
    assert a * s * x == x * s * a;
    MulCancel(end * y, x * s, a);
    MulCancel(x * s, end * y, a);
  }

  /** The decimal c * 10^q rounds to the double exactly when c * 10^(q-k) is in the scaled interval. */
  lemma {:induction false} DecimalRounds(t: Scaled, f: nat, e: int, k: int, c: nat, q: int)
    requires ScaledFor(t, f, e, k) && f > 0 && t.lo > 0
    ensures RoundsTo(f, e, Num(c, q), Den(q)) <==> Inside(t, Num(c, q - k), Den(q - k))
  {
    var x, y := Num(c, q - k), Den(q - k);
    InsideRounds(t, f, e, k, x, y);
    ShiftDecimal(c, q, k);
    DenPos(q);
    ScaledDenPos(q - k, k);
    SameFraction(f, e, Num(c, q), Den(q), x * Pow(10, Pos(k)), y * Pow(10, Pos(-k)));
  }

  lemma {:induction false} ScaledDenPos(q: int, k: int)
    ensures Den(q) * Pow(10, Pos(-k)) > 0
  {
    DenPos(q);
    PowPos(10, Pos(-k));
    MulStrict(0, Den(q), Pow(10, Pos(-k)));
  }

  lemma {:induction false} DistanceTransfer(t: Scaled, f: nat, e: int, k: int, x: nat, y: nat)
    requires IsRatio(t.n, t.s, f, e, k)
    ensures DoubleDistance(f, e, x * Pow(10, Pos(k)), y * Pow(10, Pos(-k))) * t.s
         == Distance(x * t.s, t.n * y) * (Pow(10, Pos(k)) * Pow(2, Pos(-e)))
  {
    var p, p', ten, ten' := Pow(2, Pos(e)), Pow(2, Pos(-e)), Pow(10, Pos(k)), Pow(10, Pos(-k));
    DistanceProducts(t.n, t.s, f, p, p', ten, ten', x, y);
    DistanceScale(x * ten * p', f * p * (y * ten'), t.s);
    DistanceScale(x * t.s, t.n * y, ten * p');
  }

  lemma {:induction false} DistanceProducts(n: nat, s: nat, f: nat, p: nat, p': nat, ten: nat, ten': nat, x: nat, y: nat)
    requires n * (p' * ten) == s * (f * (p * ten'))
    ensures x * ten * p' * s == x * s * (ten * p') && f * p * (y * ten') * s == n * y * (ten * p')
  {
  }

  /** Nearer in the scaled numbers is nearer to the double. */
  lemma {:induction false} NearerTransfer(t: Scaled, f: nat, e: int, k: int, x: nat, y: nat, x2: nat, y2: nat)
    requires IsRatio(t.n, t.s, f, e, k) && t.s > 0
    requires Distance(x * t.s, t.n * y) * y2 <= Distance(x2 * t.s, t.n * y2) * y
    ensures NoFarther(f, e, x * Pow(10, Pos(k)), y * Pow(10, Pos(-k)), x2 * Pow(10, Pos(k)), y2 * Pow(10, Pos(-k)))
  {
    var ten, ten', m := Pow(10, Pos(k)), Pow(10, Pos(-k)), Pow(10, Pos(k)) * Pow(2, Pos(-e));
    DistanceTransfer(t, f, e, k, x, y);
    DistanceTransfer(t, f, e, k, x2, y2);
    NearerProducts(Distance(x * t.s, t.n * y), Distance(x2 * t.s, t.n * y2), y, y2, m, t.s, ten',
      DoubleDistance(f, e, x * ten, y * ten'), DoubleDistance(f, e, x2 * ten, y2 * ten'));
  }

  lemma {:induction false} NearerProducts(a: nat, b: nat, y: nat, y2: nat, m: nat, s: nat, ten: nat, da: nat, db: nat)
    requires s > 0 && da * s == a * m && db * s == b * m && a * y2 <= b * y
    ensures da * (y2 * ten) <= db * (y * ten)
  {
    MulMono(a * y2, b * y, m);
    assert da * y2 * s == a * y2 * m by { assert da * y2 * s == da * s * y2; assert a * y2 * m == a * m * y2; }
    assert db * y * s == b * y * m by { assert db * y * s == db * s * y; assert b * y * m == b * m * y; }
    MulCancel(da * y2, db * y, s);
    MulMono(da * y2, db * y, ten);
    MulAssoc(da, y2, ten);
    MulAssoc(db, y, ten);
  }

  /** A decimal that is nearest in the scaled numbers is nearest to the double. */
  lemma {:induction false} DecimalNearer(t: Scaled, f: nat, e: int, k: int, c0: nat, q0: int, c: nat, q: int)
    requires IsRatio(t.n, t.s, f, e, k) && t.s > 0
    requires Distance(Num(c0, q0 - k) * t.s, t.n * Den(q0 - k)) * Den(q - k) <= Distance(Num(c, q - k) * t.s, t.n * Den(q - k)) * Den(q0 - k)
    ensures NoFarther(f, e, Num(c0, q0), Den(q0), Num(c, q), Den(q))
  {
    var x, y, x2, y2 := Num(c0, q0 - k), Den(q0 - k), Num(c, q - k), Den(q - k);
    NearerTransfer(t, f, e, k, x, y, x2, y2);
    ShiftDecimal(c0, q0, k);
    ShiftDecimal(c, q, k);
    DenPos(q0);
    DenPos(q);
    ScaledDenPos(q0 - k, k);
    ScaledDenPos(q - k, k);
    SameFractions(f, e, Num(c0, q0), Den(q0), x * Pow(10, Pos(k)), y * Pow(10, Pos(-k)),
      Num(c, q), Den(q), x2 * Pow(10, Pos(k)), y2 * Pow(10, Pos(-k)));
  }
}
