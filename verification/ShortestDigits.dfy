/**
 The shortest decimal that rounds to a given number, digit by digit on
 big numbers (the conversion without a digit limit).
 */
module ShortestDigits {
  import opened Words
  import opened Bigints
  import opened Subtraction
  import opened Division
  import opened Decimals
  import opened RoundingInterval

  /** What to do with the last digit: keep it, count it up, or go on. */
  datatype Choice = Keep | Up | More

  ghost predicate Distinct(a: Bigint, b: Bigint) {
    a != b && a.x != b.x
  }

  /** Four numbers of which only the half gaps may be one object. */
  ghost predicate Separate(b: Bigint, s: Bigint, mlo: Bigint, mhi: Bigint) {
    Distinct(b, s) && Distinct(b, mlo) && Distinct(b, mhi) && Distinct(s, mlo) && Distinct(s, mhi)
    && (mlo == mhi || Distinct(mlo, mhi))
  }

  /** The zero test that allows for both encodings. */
  method IsZero(b: Bigint) returns (zero: bool)
    requires b.Reduced()
    ensures zero <==> b.Value() == 0
  {
    zero := b.x[0] == 0 && b.wds <= 1;
    if b.wds == 1 {
      ValOne(b.x[..1]);
    } else if b.wds > 1 {
      ValTop(b.x[..b.wds]);
      PlacePos(b.wds - 1);
    }
  }

  /** The sign of twice the remainder less the divisor. */
  method CompareHalf(b: Bigint, s: Bigint) returns (j: int)
    requires b.Reduced() && b.Value() > 0 && Divisor(s)
    ensures (j < 0 <==> 2 * b.Value() < s.Value()) && (j > 0 <==> 2 * b.Value() > s.Value())
  {
    DivisorPositive(s);
    var twice := ShiftLeft(b, 1);
    assert Pow(2, 1) == 2;
    j := Cmp(twice, s);
  }

  /** The sign of the remainder plus the upper half gap, less the divisor; negative of two zeros without words. */
  method CompareHigh(b: Bigint, s: Bigint, mhi: Bigint) returns (j: int)
    requires b.Reduced() && Divisor(s) && mhi.Normal()
    ensures j > 0 ==> b.Value() + mhi.Value() > s.Value()
    ensures j == 0 ==> b.Value() + mhi.Value() == s.Value()
    ensures j < 0 ==> b.Value() + mhi.Value() < s.Value() || (b.Value() == 0 && mhi.Value() == s.Value())
  {
    var delta := Diff(s, mhi);
    if delta.sign {
      return 1;
    }
    j := Cmp(b, delta);
  }

  /** The remainder, the divisor and the half gaps are those of t, scaled by p. */
  ghost predicate Scales(t: Scaled, b: Bigint, s: Bigint, mlo: Bigint, mhi: Bigint, p: nat)
    reads b, b.x, s, s.x, mlo, mlo.x, mhi, mhi.x
  {
    b.Reduced() && Divisor(s) && mlo.Normal() && mhi.Normal()
    && s.Value() == t.s && mlo.Value() == t.lo * p && mhi.Value() == t.hi * p
  }

  /** Half way between two digits that both lie in the interval, the upper one not at its end. */
  ghost predicate Tie(t: Scaled, r: nat, p: nat) {
    2 * r == t.s && LowOk(t, r, p) && r + t.hi * p > t.s
  }

  method Decide(b: Bigint, s: Bigint, mlo: Bigint, mhi: Bigint, dig: nat, closed: bool, ghost t: Scaled, ghost p: nat) returns (c: Choice)
    requires Scales(t, b, s, mlo, mhi, p) && t.Ok() && p > 0 && closed == t.closed && b.Value() < t.s
    ensures c == Keep ==> LowOk(t, b.Value(), p) && (!HighOk(t, b.Value(), p) || 2 * b.Value() <= t.s)
    ensures c == Up ==> HighOk(t, b.Value(), p)
    ensures c == Up ==> !LowOk(t, b.Value(), p) || 2 * b.Value() >= t.s || (closed && dig == 9 && t.s == b.Value() + t.hi * p)
    ensures c == More ==> !LowOk(t, b.Value(), p) && !HighOk(t, b.Value(), p)
    ensures Tie(t, b.Value(), p) ==> c == if dig % 2 == 0 then Keep else Up
  {
    MulMono(t.lo, t.hi, p);
    MulStrict(0, t.lo, p);
    var j := Cmp(b, mlo);
    var j1 := CompareHigh(b, s, mhi);
    if j1 == 0 && closed {
      return if dig == 9 || j > 0 then Up else Keep;
    }
    if j < 0 || (j == 0 && closed) {
      var zero := IsZero(b);
      if !zero && j1 > 0 {
        var h := CompareHalf(b, s);
        return if h > 0 || (h == 0 && dig % 2 == 1) then Up else Keep;
      }
      return Keep;
    }
    return if j1 > 0 then Up else More;
  }

  /** Ten times the remainder and the half gaps, which may be one object. */
  method NextScale(b: Bigint, mlo: Bigint, mhi: Bigint) returns (b': Bigint, mlo': Bigint, mhi': Bigint)
    requires b.Normal() && mlo.Normal() && mhi.Normal()
    requires Distinct(b, mlo) && Distinct(b, mhi) && (mlo == mhi || Distinct(mlo, mhi))
    modifies b, b.x, mlo, mlo.x, mhi, mhi.x
    ensures b'.Normal() && mlo'.Normal() && mhi'.Normal()
    ensures b'.Value() == 10 * old(b.Value()) && mlo'.Value() == 10 * old(mlo.Value()) && mhi'.Value() == 10 * old(mhi.Value())
    ensures Distinct(b', mlo') && Distinct(b', mhi') && (mlo' == mhi' || Distinct(mlo', mhi'))
    ensures SameOrNew(b, b') && SameOrNew(mlo, mlo') && SameOrNew(mhi, mhi')
  {
    hide Val;
    b' := MultAdd(b, 10, 0);
    if mlo == mhi {
      mhi' := MultAdd(mhi, 10, 0);
      mlo' := mhi';
    } else {
      mlo' := MultAdd(mlo, 10, 0);
      mhi' := MultAdd(mhi, 10, 0);
    }
  }

  /** The digits, and one more factor of ten if carry is set, are a shortest decimal in the interval of t. */
  ghost predicate Shortest(t: Scaled, digits: seq<char>, carry: nat) {
    Significant(digits) && (carry == 0 || (carry == 1 && digits == "1"))
    && Inside(t, DecVal(digits) * Pow(10, carry), Pow(10, |digits| - 1))
    && (forall c: nat, q: int :: c < Pow(10, |digits| - 1) ==> !Inside(t, Num(c, q), Den(q)))
    && (Closest(t, DecVal(digits) * Pow(10, carry), Pow(10, |digits| - 1))
        || (carry == 1 && t.closed && t.n + t.hi == 10 * t.s))
  }

  lemma {:induction false} Accept(t: Scaled, d: nat, b: nat, j: nat, digits: seq<char>)
    requires Head(t, d, b, j) && |digits| == j + 1 && Significant(digits)
    requires Inside(t, DecVal(digits), Pow(10, j)) && Closest(t, DecVal(digits), Pow(10, j))
    ensures Shortest(t, digits, 0)
  {
    forall c: nat, q: int | c < Pow(10, j)
      ensures !Inside(t, Num(c, q), Den(q))
    {
      NoFewerDigits(t, d, b, j, c, q);
    }
    assert DecVal(digits) * Pow(10, 0) == DecVal(digits);
  }

  lemma {:induction false} AcceptTen(t: Scaled, digits: seq<char>)
    requires Head(t, 0, t.n, 0) && digits == "1" && Inside(t, 10, 1)
    requires Closest(t, 10, 1) || (t.closed && t.n + t.hi == 10 * t.s)
    ensures Shortest(t, digits, 1)
  {
    forall c: nat, q: int | c < Pow(10, 0)
      ensures !Inside(t, Num(c, q), Den(q))
    {
      NoFewerDigits(t, 0, t.n, 0, c, q);
    }
    DecOne(digits);
    assert Pow(10, 1) == 10;
  }

  /** The digits so far, with one more. */
  lemma {:induction false} Emit(before: seq<char>, after: seq<char>, dig: nat)
    requires dig <= 9 && after == before + [DigitChar(dig)] && IsDigits(before)
    requires before == [] ==> dig > 0
    requires before != [] ==> before[0] != '0'
    ensures IsDigits(after) && after[0] != '0' && DecVal(after) == 10 * DecVal(before) + dig
    ensures dig > 0 ==> Significant(after)
  {
  }

  /** One digit and what follows from it, without the change of scale. */
  lemma {:induction false} FirstDigit(t: Scaled, d: nat, b: nat, j: nat, dig: nat)
    requires Head(t, d, b, j) && dig == b / t.s && j == 0
    ensures dig > 0 && b == t.n
  {
  }

  /** The digit loop: the digits go to buf, the number of them and the carry into the exponent are returned. */
  method Generate(b0: Bigint, s: Bigint, mlo0: Bigint, mhi0: Bigint, closed: bool, buf: array<char>, ghost t: Scaled)
      returns (n: nat, carry: nat)
    requires t.Ok() && t.closed == closed && Scales(t, b0, s, mlo0, mhi0, 1) && b0.Value() == t.n
    requires Separate(b0, s, mlo0, mhi0)
    requires t.n < 0x20_0000_0000_0000 * (t.lo + t.hi) && buf.Length >= 17
    modifies b0, b0.x, mlo0, mlo0.x, mhi0, mhi0.x, buf
    ensures 1 <= n <= 17 && Shortest(t, buf[..n], carry)
  {
    var b, mlo, mhi := b0, mlo0, mhi0;
    var j := 0;
    assert Pow(10, 0) == 1;
    while true
      invariant 0 <= j <= 16 && IsDigits(buf[..j]) && (j > 0 ==> buf[0] != '0')
      invariant Scales(t, b, s, mlo, mhi, Pow(10, j))
      invariant Head(t, DecVal(buf[..j]), b.Value(), j)
      invariant Separate(b, s, mlo, mhi)
      invariant SameOrNew(b0, b) && SameOrNew(mlo0, mlo) && SameOrNew(mhi0, mhi)
      decreases 17 - j
    {
      var done;
      done, n, carry, b, mlo, mhi := DigitStep(b, s, mlo, mhi, closed, buf, j, t);
      if done {
        return;
      }
      j := j + 1;
    }
  }

  /** One digit: the last one if it can be. */
  method DigitStep(b: Bigint, s: Bigint, mlo: Bigint, mhi: Bigint, closed: bool, buf: array<char>, j: nat, ghost t: Scaled)
      returns (done: bool, n: nat, carry: nat, b': Bigint, mlo': Bigint, mhi': Bigint)
    requires Scales(t, b, s, mlo, mhi, Pow(10, j)) && Separate(b, s, mlo, mhi) && closed == t.closed
    requires j <= 16 < buf.Length && IsDigits(buf[..j]) && (j > 0 ==> buf[0] != '0')
    requires Head(t, DecVal(buf[..j]), b.Value(), j) && t.n < 0x20_0000_0000_0000 * (t.lo + t.hi)
    modifies b, b.x, mlo, mlo.x, mhi, mhi.x, buf
    ensures SameOrNew(b, b') && SameOrNew(mlo, mlo') && SameOrNew(mhi, mhi')
    ensures done ==> 1 <= n <= 17 && Shortest(t, buf[..n], carry)
    ensures !done ==> j + 1 <= 16 && IsDigits(buf[..j + 1]) && buf[0] != '0'
    ensures !done ==> Scales(t, b', s, mlo', mhi', Pow(10, j + 1)) && Separate(b', s, mlo', mhi')
    ensures !done ==> Head(t, DecVal(buf[..j + 1]), b'.Value(), j + 1)
  {
    b', mlo', mhi', n, carry := b, mlo, mhi, 0, 0;
    ghost var bv := b.Value();
    var dig, choice := Advance(b, s, mlo, mhi, closed, t, DecVal(buf[..j]), j);
    done := choice != More;
    if done {
      n, carry := Finish(buf, j, dig, choice, t, bv, b.Value());
    } else {
      b', mlo', mhi' := Continue(b, s, mlo, mhi, buf, j, dig, t, bv);
    }
  }

  /** Write a digit and scale the numbers for the next one. */
  method Continue(b: Bigint, s: Bigint, mlo: Bigint, mhi: Bigint, buf: array<char>, j: nat, dig: nat, ghost t: Scaled, ghost bv: nat)
      returns (b': Bigint, mlo': Bigint, mhi': Bigint)
    requires Scales(t, b, s, mlo, mhi, Pow(10, j)) && Separate(b, s, mlo, mhi)
    requires j < buf.Length && IsDigits(buf[..j]) && (j > 0 ==> buf[0] != '0')
    requires Head(t, DecVal(buf[..j]), bv, j) && Decided(t, bv, j, dig, b.Value(), More)
    requires t.n < 0x20_0000_0000_0000 * (t.lo + t.hi)
    modifies b, b.x, mlo, mlo.x, mhi, mhi.x, buf
    ensures j + 1 <= 16 && IsDigits(buf[..j + 1]) && buf[0] != '0'
    ensures Scales(t, b', s, mlo', mhi', Pow(10, j + 1)) && Separate(b', s, mlo', mhi')
    ensures Head(t, DecVal(buf[..j + 1]), b'.Value(), j + 1)
    ensures SameOrNew(b, b') && SameOrNew(mlo, mlo') && SameOrNew(mhi, mhi')
  {
    ghost var before := buf[..j];
    buf[j] := DigitChar(dig);
    ghost var after := buf[..j + 1];
    assert after == before + [DigitChar(dig)];
    GoOn(t, bv, j, dig, b.Value(), before, after, mlo.Value(), mhi.Value());
    b', mlo', mhi' := NextScale(b, mlo, mhi);
    assert buf[..j + 1] == after;
  }

  /** The choice is right for the digit dig and the remainder r. */
  ghost predicate Decided(t: Scaled, b: nat, j: nat, dig: nat, r: nat, c: Choice) {
    var p := Pow(10, j);
    t.s > 0 && dig == b / t.s <= 9 && r == b % t.s
    && (c == Keep ==> LowOk(t, r, p) && (!HighOk(t, r, p) || 2 * r <= t.s))
    && (c == Up ==> HighOk(t, r, p))
    && (c == Up ==> !LowOk(t, r, p) || 2 * r >= t.s || (t.closed && dig == 9 && t.s == r + t.hi * p))
    && (c == More ==> !LowOk(t, r, p) && !HighOk(t, r, p))
    && (Tie(t, r, p) ==> c == if dig % 2 == 0 then Keep else Up)
  }

  /** Divide off the next digit and decide. */
  method Advance(b: Bigint, s: Bigint, mlo: Bigint, mhi: Bigint, closed: bool, ghost t: Scaled, ghost d: nat, ghost j: nat)
      returns (dig: nat, choice: Choice)
    requires Scales(t, b, s, mlo, mhi, Pow(10, j)) && Head(t, d, b.Value(), j) && closed == t.closed
    requires Separate(b, s, mlo, mhi)
    modifies b`wds, b.x
    ensures Scales(t, b, s, mlo, mhi, Pow(10, j))
    ensures b.Reduced() && Decided(t, old(b.Value()), j, dig, b.Value(), choice)
  {
    PowPos(10, j);
    ghost var bv := b.Value();
    dig := QuoRem(b, s);
    choice := Decide(b, s, mlo, mhi, dig, closed, t, Pow(10, j));
  }

  /** Write the last digit. */
  method Finish(buf: array<char>, j: nat, dig: nat, choice: Choice, ghost t: Scaled, ghost b: nat, ghost r: nat)
      returns (n: nat, carry: nat)
    requires j < buf.Length && IsDigits(buf[..j]) && (j > 0 ==> buf[0] != '0')
    requires Head(t, DecVal(buf[..j]), b, j) && Decided(t, b, j, dig, r, choice) && choice != More
    modifies buf
    ensures 1 <= n <= j + 1 && n <= buf.Length && Shortest(t, buf[..n], carry)
  {
    ghost var before := buf[..j];
    if choice == Up && dig == 9 {
      NineOnlyFirst(t, DecVal(before), b, j, dig, r);
      buf[0] := '9';
      n, carry := RoundOff(buf, 1);
      TenUp(t, b, r, buf[..1]);
      return;
    }
    buf[j] := if choice == Up then DigitChar(dig + 1) else DigitChar(dig);
    if choice == Up {
      UpDigit(t, b, j, dig, r, before, buf[..j + 1]);
    } else {
      KeepDigit(t, b, j, dig, r, before, buf[..j + 1]);
    }
    return j + 1, 0;
  }

  lemma {:induction false} KeepDigit(t: Scaled, b: nat, j: nat, dig: nat, r: nat, before: seq<char>, after: seq<char>)
    requires |before| == j && IsDigits(before) && (j > 0 ==> before[0] != '0')
    requires Head(t, DecVal(before), b, j) && Decided(t, b, j, dig, r, Keep)
    requires after == before + [DigitChar(dig)]
    ensures Shortest(t, after, 0)
  {
    var d := DecVal(before);
    DivideStep(t, d, b, Pow(10, j), dig, r);
    PowPos(10, j);
    NoTrailingZero(t, d, b, j, dig, r);
    Emit(before, after, dig);
    KeepInside(t, 10 * d + dig, r, Pow(10, j));
    ClosestKeep(t, 10 * d + dig, r, Pow(10, j));
    Accept(t, d, b, j, after);
  }

  lemma {:induction false} UpDigit(t: Scaled, b: nat, j: nat, dig: nat, r: nat, before: seq<char>, after: seq<char>)
    requires |before| == j && IsDigits(before) && (j > 0 ==> before[0] != '0')
    requires Head(t, DecVal(before), b, j) && Decided(t, b, j, dig, r, Up) && dig < 9
    requires after == before + [DigitChar(dig + 1)]
    ensures Shortest(t, after, 0)
  {
    var d := DecVal(before);
    DivideStep(t, d, b, Pow(10, j), dig, r);
    PowPos(10, j);
    Emit(before, after, dig + 1);
    UpInside(t, 10 * d + dig, r, Pow(10, j));
    ClosestUp(t, 10 * d + dig, r, Pow(10, j));
    Accept(t, d, b, j, after);
  }

  /** Counting up a single nine. */
  lemma {:induction false} TenUp(t: Scaled, b: nat, r: nat, digits: seq<char>)
    requires Head(t, 0, b, 0) && Decided(t, b, 0, 9, r, Up) && digits == "1"
    ensures Shortest(t, digits, 1)
  {
    assert Pow(10, 0) == 1;
    assert b == 9 * t.s + r == t.n;
    UpInside(t, 9, r, 1);
    if !LowOk(t, r, 1) || 2 * r >= t.s {
      ClosestUp(t, 9, r, 1);
    }
    AcceptTen(t, digits);
  }

  lemma {:induction false} GoOn(t: Scaled, b: nat, j: nat, dig: nat, r: nat, before: seq<char>, after: seq<char>, lo: nat, hi: nat)
    requires |before| == j && IsDigits(before) && (j > 0 ==> before[0] != '0')
    requires Head(t, DecVal(before), b, j) && Decided(t, b, j, dig, r, More)
    requires after == before + [DigitChar(dig)] && lo == t.lo * Pow(10, j) && hi == t.hi * Pow(10, j)
    requires t.n < 0x20_0000_0000_0000 * (t.lo + t.hi)
    ensures IsDigits(after) && after[0] != '0' && Head(t, DecVal(after), 10 * r, j + 1) && j + 1 <= 16 && r > 0
    ensures 10 * lo == t.lo * Pow(10, j + 1) && 10 * hi == t.hi * Pow(10, j + 1)
  {
    var d := DecVal(before);
    DivideStep(t, d, b, Pow(10, j), dig, r);
    if j == 0 {
      FirstDigit(t, d, b, j, dig);
    }
    Emit(before, after, dig);
    NextHead(t, 10 * d + dig, r, j);
    SeventeenDigits(t, 10 * d + dig, 10 * r, j + 1);
    Tenfold(t.lo, j);
    Tenfold(t.hi, j);
    PowPos(10, j);
    MulStrict(0, t.lo, Pow(10, j));
  }
}
