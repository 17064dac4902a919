/**
 Which decimals lie in the rounding interval of a number, and the step-by-step
 search for the shortest of them.  Numbers are fractions with a common divisor.
 */
module RoundingInterval {
  import opened Words

  /**
   The number n / s, at least one and below ten, with the half gaps lo / s and
   hi / s to its neighbours.  The interval is closed when the number has an even
   significand: a decimal half way to a neighbour then still rounds to it.
   */
  datatype Scaled = Scaled(n: nat, s: nat, lo: nat, hi: nat, closed: bool) {
    ghost predicate Ok() {
      s > 0 && s <= n < 10 * s && 0 < lo <= hi && lo < n
    }
  }

  /** num / den is in the interval of t. */
  ghost predicate Inside(t: Scaled, num: nat, den: nat) {
    if t.closed then (t.n - t.lo) * den <= num * t.s <= (t.n + t.hi) * den
    else (t.n - t.lo) * den < num * t.s < (t.n + t.hi) * den
  }

  /** The decimal c * 10^q as a fraction. */
  ghost function Num(c: nat, q: int): nat {
    if q >= 0 then c * Pow(10, q) else c
  }

  ghost function Den(q: int): nat {
    if q >= 0 then 1 else Pow(10, -q)
  }

  ghost function Distance(a: int, b: int): nat {
    if a <= b then b - a else a - b
  }

  /** No multiple of 1 / den in the interval is nearer to t than num / den. */
  ghost predicate Closest(t: Scaled, num: nat, den: nat) {
    forall c: nat :: Inside(t, c, den) ==> Distance(num * t.s, t.n * den) <= Distance(c * t.s, t.n * den)
  }

  // ---- one digit ----

  /** The remainder r after j + 1 digits is so small that they are in the interval. */
  ghost predicate LowOk(t: Scaled, r: nat, p: nat) {
    r < t.lo * p || (t.closed && r == t.lo * p)
  }

  /** The remainder r after j + 1 digits is so large that counting them up gets into the interval. */
  ghost predicate HighOk(t: Scaled, r: nat, p: nat) {
    t.s < r + t.hi * p || (t.closed && t.s == r + t.hi * p)
  }

  /** p = 10^j, the digits so far are d and what remains of the number is b. */
  ghost predicate Remains(t: Scaled, d: nat, b: nat, p: nat) {
    t.n * p == 10 * d * t.s + b && b < 10 * t.s
  }

  /** Before digit j + 1: no decimal with j digits is in the interval. */
  ghost predicate Head(t: Scaled, d: nat, b: nat, j: nat) {
    t.Ok() && Remains(t, d, b, Pow(10, j))
    && (j == 0 ==> d == 0)
    && (j > 0 ==> if t.closed then b > t.lo * Pow(10, j) && 10 * t.s > b + t.hi * Pow(10, j)
                  else b >= t.lo * Pow(10, j) && 10 * t.s >= b + t.hi * Pow(10, j))
  }

  /** After the division: d digits and the remainder r below s. */
  ghost predicate Divided(t: Scaled, d: nat, r: nat, p: nat) {
    t.n * p == d * t.s + r && r < t.s
  }

  lemma {:induction false} DivideStep(t: Scaled, d: nat, b: nat, p: nat, dig: nat, r: nat)
    requires t.s > 0 && Remains(t, d, b, p) && dig == b / t.s && r == b % t.s
    ensures Divided(t, 10 * d + dig, r, p) && dig <= 9
  {
  }

  lemma {:induction false} InsideLinear(t: Scaled, num: nat, den: nat)
    ensures Inside(t, num, den) <==>
      if t.closed then t.n * den <= num * t.s + t.lo * den && num * t.s <= t.n * den + t.hi * den
      else t.n * den < num * t.s + t.lo * den && num * t.s < t.n * den + t.hi * den
  {
  }

  /** A multiple of s that is not d * s lies on one side of it. */
  lemma {:induction false} Sides(c: nat, d: nat, s: nat)
    ensures c <= d ==> c * s <= d * s
    ensures c > d ==> c * s >= d * s + s
  {
    if c <= d {
      MulMono(c, d, s);
    } else {
      MulMono(d + 1, c, s);
      MulDistrib(s, d, 1);
    }
  }

  /** Keeping the digits. */
  lemma {:induction false} KeepInside(t: Scaled, d: nat, r: nat, p: nat)
    requires t.Ok() && p > 0 && Divided(t, d, r, p)
    ensures Inside(t, d, p) <==> LowOk(t, r, p)
  {
    InsideLinear(t, d, p);
    MulStrict(0, t.hi, p);
  }

  /** Counting the digits up. */
  lemma {:induction false} UpInside(t: Scaled, d: nat, r: nat, p: nat)
    requires t.Ok() && p > 0 && Divided(t, d, r, p)
    ensures Inside(t, d + 1, p) <==> HighOk(t, r, p)
  {
    InsideLinear(t, d + 1, p);
    MulDistrib(t.s, d, 1);
    MulStrict(0, t.lo, p);
  }

  /** If neither neighbouring multiple of 1 / p is in the interval, none is. */
  lemma {:induction false} NoneInside(t: Scaled, d: nat, r: nat, p: nat, c: nat)
    requires t.Ok() && p > 0 && Divided(t, d, r, p) && !LowOk(t, r, p) && !HighOk(t, r, p)
    ensures !Inside(t, c, p)
  {
    InsideLinear(t, c, p);
    Sides(c, d, t.s);
  }

  lemma {:induction false} NextHead(t: Scaled, d: nat, r: nat, j: nat)
    requires t.Ok() && Divided(t, d, r, Pow(10, j)) && !LowOk(t, r, Pow(10, j)) && !HighOk(t, r, Pow(10, j))
    ensures Head(t, d, 10 * r, j + 1)
  {
    Tenfold(t.n, j);
    Tenfold(t.lo, j);
    Tenfold(t.hi, j);
    MulAssoc(10, d, t.s);
  }

  lemma {:induction false} Tenfold(x: nat, j: nat)
    ensures x * Pow(10, j + 1) == 10 * (x * Pow(10, j))
  {
  }

  /** What the head says of the digits before it: no multiple of 10^-(j-1) is in the interval. */
  lemma {:induction false} HeadExcludes(t: Scaled, d: nat, b: nat, j: nat, c: nat)
    requires Head(t, d, b, j + 1)
    ensures !Inside(t, c, Pow(10, j))
  {
    Tenfold(t.n, j);
    Tenfold(t.lo, j);
    Tenfold(t.hi, j);
    MulAssoc(10, d, t.s);
    PowPos(10, j);
    NoneInside(t, d, t.n * Pow(10, j) - d * t.s, Pow(10, j), c);
  }

  // ---- fewer digits ----

  lemma {:induction false} InsideScale(t: Scaled, num: nat, den: nat, f: nat)
    requires f > 0
    ensures Inside(t, num * f, den * f) <==> Inside(t, num, den)
  {
  }

  /** A number below one in the interval puts one in it as well. */
  lemma {:induction false} BelowOne(t: Scaled, num: nat, den: nat)
    requires t.Ok() && num < den && Inside(t, num, den)
    ensures Inside(t, 1, 1)
  {
    MulStrict(num, den, t.s);
    MulCancel(t.n - t.lo, t.s, den);
  }

  /** Zero is not in the interval. */
  lemma {:induction false} NotZero(t: Scaled, den: nat)
    requires t.Ok() && den > 0
    ensures !Inside(t, 0, den)
  {
    MulStrict(0, t.n - t.lo, den);
  }

  lemma {:induction false} DenPos(q: int)
    ensures Den(q) > 0
  {
    if q < 0 {
      PowPos(10, -q);
    }
  }

  /** No decimal with at most j digits is in the interval. */
  lemma {:induction false} NoFewerDigits(t: Scaled, d: nat, b: nat, j: nat, c: nat, q: int)
    requires Head(t, d, b, j) && c < Pow(10, j)
    ensures !Inside(t, Num(c, q), Den(q))
  {
    if j == 0 {
      assert Num(0, q) == 0;
      DenPos(q);
      NotZero(t, Den(q));
    } else if Inside(t, Num(c, q), Den(q)) {
      if -q <= j - 1 {
        CoarseDecimal(t, c, q, j - 1);
        HeadExcludes(t, d, b, j - 1, if q >= 0 then Num(c, q) * Pow(10, j - 1) else c * Pow(10, j - 1 + q));
      } else {
        PowMono(10, j, -q);
        BelowOne(t, c, Den(q));
        PowPos(10, j - 1);
        InsideScale(t, 1, 1, Pow(10, j - 1));
        HeadExcludes(t, d, b, j - 1, Pow(10, j - 1));
      }
    }
  }

  /** A decimal with at most e fraction digits as a multiple of 10^-e. */
  lemma {:induction false} CoarseDecimal(t: Scaled, c: nat, q: int, e: nat)
    requires -q <= e && Inside(t, Num(c, q), Den(q))
    ensures Inside(t, if q >= 0 then Num(c, q) * Pow(10, e) else c * Pow(10, e + q), Pow(10, e))
  {
    if q >= 0 {
      PowPos(10, e);
      InsideScale(t, Num(c, q), 1, Pow(10, e));
    } else {
      PowPos(10, e + q);
      PowAdd(10, -q, e + q);
      InsideScale(t, c, Den(q), Pow(10, e + q));
    }
  }

  // ---- the last digit ----

  /** A nine that is counted up would have been counted up a digit earlier. */
  lemma {:induction false} NineOnlyFirst(t: Scaled, d: nat, b: nat, j: nat, dig: nat, r: nat)
    requires Head(t, d, b, j) && dig == b / t.s && r == b % t.s && HighOk(t, r, Pow(10, j)) && dig == 9
    ensures j == 0
  {
  }

  /** A zero that is kept would have been left out a digit earlier. */
  lemma {:induction false} NoTrailingZero(t: Scaled, d: nat, b: nat, j: nat, dig: nat, r: nat)
    requires Head(t, d, b, j) && dig == b / t.s && r == b % t.s && LowOk(t, r, Pow(10, j))
    ensures dig != 0
  {
    assert Pow(10, 0) == 1;
    assert b == dig * t.s + r;
  }

  /** Of the two neighbouring multiples of 1 / p, the nearer one in the interval is the nearest of all. */
  lemma {:induction false} ClosestKeep(t: Scaled, d: nat, r: nat, p: nat)
    requires t.Ok() && p > 0 && Divided(t, d, r, p) && (!HighOk(t, r, p) || 2 * r <= t.s)
    ensures Closest(t, d, p)
  {
    forall c: nat | Inside(t, c, p)
      ensures Distance(d * t.s, t.n * p) <= Distance(c * t.s, t.n * p)
    {
      InsideLinear(t, c, p);
      Sides(c, d, t.s);
    }
  }

  lemma {:induction false} ClosestUp(t: Scaled, d: nat, r: nat, p: nat)
    requires t.Ok() && p > 0 && Divided(t, d, r, p) && (!LowOk(t, r, p) || 2 * r >= t.s)
    ensures Closest(t, d + 1, p)
  {
    MulDistrib(t.s, d, 1);
    forall c: nat | Inside(t, c, p)
      ensures Distance((d + 1) * t.s, t.n * p) <= Distance(c * t.s, t.n * p)
    {
      InsideLinear(t, c, p);
      Sides(c, d, t.s);
    }
  }

  /** A decimal below one is no nearer than one. */
  lemma {:induction false} OneIsNearer(t: Scaled, num: nat, den: nat, p: nat, best: nat)
    requires t.Ok() && num < den && best <= Distance(p * t.s, t.n * p)
    ensures best * den <= Distance(num * t.s, t.n * den) * p
  {
  }

  lemma {:induction false} DistanceScale(a: nat, b: nat, g: nat)
    ensures Distance(a * g, b * g) == Distance(a, b) * g
  {
  }

  /** The same decimal over another denominator. */
  lemma {:induction false} SameDistance(t: Scaled, num: nat, den: nat, c: nat, p: nat, best: nat)
    requires c * den == num * p && best <= Distance(c * t.s, t.n * p)
    ensures best * den <= Distance(num * t.s, t.n * den) * p
  {
  }

  /** A closest multiple of 10^-j is at least as near as every decimal of j + 1 digits in the interval. */
  lemma {:induction false} ClosestOfAll(t: Scaled, num0: nat, j: nat, c: nat, q: int)
    requires t.Ok() && Closest(t, num0, Pow(10, j)) && c < Pow(10, j + 1) && Inside(t, Num(c, q), Den(q))
    ensures Distance(num0 * t.s, t.n * Pow(10, j)) * Den(q) <= Distance(Num(c, q) * t.s, t.n * Den(q)) * Pow(10, j)
  {
    PowPos(10, j);
    var p := Pow(10, j);
    var best := Distance(num0 * t.s, t.n * p);
    if -q <= j {
      CoarseMultiple(t, c, q, j, best);
    } else {
      PowMono(10, j + 1, -q);
      BelowOne(t, c, Den(q));
      InsideScale(t, 1, 1, p);
      OneIsNearer(t, c, Den(q), p, best);
    }
  }

  /** A decimal with at most j fraction digits in the interval is a multiple of 10^-j in it. */
  lemma {:induction false} CoarseMultiple(t: Scaled, c: nat, q: int, j: nat, best: nat)
    requires -q <= j && Inside(t, Num(c, q), Den(q))
    requires forall m: nat :: Inside(t, m, Pow(10, j)) ==> best <= Distance(m * t.s, t.n * Pow(10, j))
    ensures best * Den(q) <= Distance(Num(c, q) * t.s, t.n * Den(q)) * Pow(10, j)
  {
    CoarseDecimal(t, c, q, j);
    if q >= 0 {
      SameDistance(t, Num(c, q), 1, Num(c, q) * Pow(10, j), Pow(10, j), best);
    } else {
      PowAdd(10, j + q, -q);
      MulAssoc(c, Pow(10, j + q), Den(q));
      SameDistance(t, c, Den(q), c * Pow(10, j + q), Pow(10, j), best);
    }
  }

  // ---- the number of digits ----

  /** A significand below 2^53 ends the search at the seventeenth digit. */
  lemma {:induction false} SeventeenDigits(t: Scaled, d: nat, b: nat, j: nat)
    requires Head(t, d, b, j) && t.n < 0x20_0000_0000_0000 * (t.lo + t.hi)
    ensures j <= 16
  {
    if j > 16 {
      PowMono(10, 17, j);
      assert Pow(10, 17) == 100_0000_0000_0000_000 by {
        assert Pow(10, 5) == 100000;
        PowAdd(10, 5, 5);
        PowAdd(10, 10, 5);
        PowAdd(10, 15, 2);
      }
      var g := t.lo + t.hi;
      MulDistrib(Pow(10, j), t.lo, t.hi);
      MulMono(Pow(10, 17), Pow(10, j), g);
    }
  }
}
