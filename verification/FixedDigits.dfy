/**
 A given number of significant decimal digits, rounded half up, digit by digit on
 big numbers.
 */
module FixedDigits {
  import opened Words
  import opened Bigints
  import opened Subtraction
  import opened Division
  import opened Decimals
  import opened ShortestDigits

  /** a / s to the nearest integer, and up when it is half way. */
  ghost function RoundHalfUp(a: nat, s: nat): nat
    requires s > 0
  {
    (2 * a + s) / (2 * s)
  }

  /** The nearest integer is the only one within half, the upper bound excluded. */
  lemma {:induction false} RoundHalfUpUnique(a: nat, s: nat, v: nat)
    requires s > 0
    ensures v == RoundHalfUp(a, s) <==> 2 * a - s < 2 * (v * s) <= 2 * a + s
  {
    var q, r := (2 * a + s) / (2 * s), (2 * a + s) % (2 * s);
    assert 2 * a + s == q * (2 * s) + r;
    assert q * (2 * s) == 2 * (q * s);
    if v < q {
      MulMono(v + 1, q, s);
      MulDistrib(s, v, 1);
    } else if v > q {
      MulMono(q + 1, v, s);
      MulDistrib(s, q, 1);
    }
  }

  /** n * p is d times s, with the remainder r. */
  ghost predicate Quotients(n: nat, s: nat, d: nat, r: nat, p: nat) {
    n * p == d * s + r && r < s
  }

  /** Before digit j + 1, which is not the first of nothing. */
  ghost predicate FixedHead(n: nat, s: nat, d: nat, b: nat, j: nat) {
    n * Pow(10, j) == 10 * d * s + b && 0 < b < 10 * s && (j == 0 ==> d == 0 && s <= b)
  }

  lemma {:induction false} FixedDivide(n: nat, s: nat, d: nat, b: nat, j: nat, dig: nat, r: nat)
    requires s > 0 && FixedHead(n, s, d, b, j) && dig == b / s && r == b % s
    ensures Quotients(n, s, 10 * d + dig, r, Pow(10, j)) && dig <= 9
    ensures j == 0 || r == 0 ==> dig > 0
  {
  }

  lemma {:induction false} FixedNext(n: nat, s: nat, d: nat, r: nat, j: nat)
    requires Quotients(n, s, d, r, Pow(10, j)) && r > 0
    ensures FixedHead(n, s, d, 10 * r, j + 1)
  {
  }

  /** Nothing remains: more digits would be zeros. */
  lemma {:induction false} FixedExact(n: nat, s: nat, d: nat, j: nat, limit: nat)
    requires s > 0 && Quotients(n, s, d, 0, Pow(10, j)) && j < limit
    ensures d * Pow(10, limit - (j + 1)) == RoundHalfUp(n * Pow(10, limit - 1), s)
  {
    var p, e := Pow(10, j), Pow(10, limit - (j + 1));
    PowAdd(10, j, limit - (j + 1));
    assert n * Pow(10, limit - 1) == d * e * s by {
      MulAssoc(n, p, e);
      MulAssoc(d, s, e);
      MulAssoc(d, e, s);
    }
    RoundHalfUpUnique(n * Pow(10, limit - 1), s, d * e);
  }

  /** The last digit is counted up exactly when at least half remains. */
  lemma {:induction false} FixedRound(n: nat, s: nat, d: nat, r: nat, p: nat)
    requires s > 0 && Quotients(n, s, d, r, p)
    ensures RoundHalfUp(n * p, s) == if 2 * r >= s then d + 1 else d
  {
    MulDistrib(s, d, 1);
    RoundHalfUpUnique(n * p, s, if 2 * r >= s then d + 1 else d);
  }

  /** The digits, and one more factor of ten if carry is set, are n / s rounded half up to limit digits. */
  ghost predicate Rounded(n: nat, s: nat, limit: nat, digits: seq<char>, carry: nat) {
    s > 0 && Significant(digits) && |digits| <= limit && (carry == 0 || (carry == 1 && digits == "1"))
    && DecVal(digits) * Pow(10, limit - |digits| + carry) == RoundHalfUp(n * Pow(10, limit - 1), s)
  }

  /** The digit loop and the rounding: the number of digits and the carry into the exponent are returned. */
  method GenerateFixed(b0: Bigint, s: Bigint, limit: nat, buf: array<char>) returns (n: nat, carry: nat)
    requires b0.Reduced() && Divisor(s) && Distinct(b0, s) && s.Value() <= b0.Value() < 10 * s.Value()
    requires 1 <= limit <= buf.Length
    modifies b0, b0.x, buf
    ensures n <= buf.Length && Rounded(old(b0.Value()), s.Value(), limit, buf[..n], carry)
  {
    ghost var nv, sv := b0.Value(), s.Value();
    DivisorPositive(s);
    var b, j := b0, 0;
    assert Pow(10, 0) == 1;
    while true
      invariant 0 <= j < limit && IsDigits(buf[..j]) && (j > 0 ==> buf[0] != '0')
      invariant b.Reduced() && Distinct(b, s) && SameOrNew(b0, b)
      invariant FixedHead(nv, sv, DecVal(buf[..j]), b.Value(), j)
      decreases limit - j
    {
      var done;
      done, n, carry, b := FixedStep(b, s, limit, buf, j, nv);
      if done {
        return;
      }
      j := j + 1;
    }
  }

  /** One digit: the last one if nothing remains or the limit is reached. */
  method FixedStep(b0: Bigint, s: Bigint, limit: nat, buf: array<char>, j: nat, ghost nv: nat)
      returns (done: bool, n: nat, carry: nat, b: Bigint)
    requires b0.Reduced() && Divisor(s) && Distinct(b0, s) && s.Value() > 0
    requires j < limit <= buf.Length && IsDigits(buf[..j]) && (j > 0 ==> buf[0] != '0')
    requires FixedHead(nv, s.Value(), DecVal(buf[..j]), b0.Value(), j)
    modifies b0, b0.x, buf
    ensures b.Reduced() && Distinct(b, s) && SameOrNew(b0, b)
    ensures done ==> n <= buf.Length && Rounded(nv, s.Value(), limit, buf[..n], carry)
    ensures !done ==> j + 1 < limit && IsDigits(buf[..j + 1]) && buf[0] != '0'
    ensures !done ==> FixedHead(nv, s.Value(), DecVal(buf[..j + 1]), b.Value(), j + 1)
  {
    b, n, carry := b0, j + 1, 0;
    var zero := NextDigit(b, s, buf, j, nv);
    ghost var digits := buf[..j + 1];
    if zero {
      FixedExact(nv, s.Value(), DecVal(digits), j, limit);
      done := true;
    } else if j + 1 >= limit {
      n, carry := RoundLast(b, s, buf, limit, nv);
      done := true;
    } else {
      FixedNext(nv, s.Value(), DecVal(digits), b.Value(), j);
      b := MultAdd(b, 10, 0);
      assert buf[..j + 1] == digits;
      done := false;
    }
  }

  /** Divide off one digit and write it. */
  method NextDigit(b: Bigint, s: Bigint, buf: array<char>, j: nat, ghost nv: nat) returns (zero: bool)
    requires b.Reduced() && Divisor(s) && Distinct(b, s)
    requires j < buf.Length && IsDigits(buf[..j]) && (j > 0 ==> buf[0] != '0')
    requires FixedHead(nv, s.Value(), DecVal(buf[..j]), b.Value(), j)
    modifies b`wds, b.x, buf
    ensures b.Reduced() && zero == (b.Value() == 0)
    ensures IsDigits(buf[..j + 1]) && buf[0] != '0' && (zero ==> Significant(buf[..j + 1]))
    ensures Quotients(nv, s.Value(), DecVal(buf[..j + 1]), b.Value(), Pow(10, j))
  {
    ghost var before, bv := buf[..j], b.Value();
    var dig := QuoRem(b, s);
    FixedDivide(nv, s.Value(), DecVal(before), bv, j, dig, b.Value());
    buf[j] := DigitChar(dig);
    assert buf[..j + 1] == before + [DigitChar(dig)];
    Emit(before, buf[..j + 1], dig);
    zero := IsZero(b);
  }

  /** Round the last of limit digits by what remains. */
  method RoundLast(b: Bigint, s: Bigint, buf: array<char>, limit: nat, ghost nv: nat) returns (n: nat, carry: nat)
    requires b.Reduced() && Divisor(s) && b.Value() > 0
    requires 1 <= limit <= buf.Length && IsDigits(buf[..limit]) && buf[0] != '0'
    requires Quotients(nv, s.Value(), DecVal(buf[..limit]), b.Value(), Pow(10, limit - 1))
    modifies buf
    ensures n <= buf.Length && Rounded(nv, s.Value(), limit, buf[..n], carry)
  {
    hide Pow, DecVal, Quotients;
    DivisorPositive(s);
    FixedRound(nv, s.Value(), DecVal(buf[..limit]), b.Value(), Pow(10, limit - 1));
    var j := CompareHalf(b, s);
    if j >= 0 {
      n, carry := RoundOff(buf, limit);
    } else {
      n := TrimZeros(buf, limit);
      carry := 0;
    }
  }
}
