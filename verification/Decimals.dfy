/**
 Decimal digits in a character buffer, and the carry and the trimming done on it
 in place.
 */
module Decimals {
  import opened Words

  function Digit(c: char): (d: nat)
    ensures d <= 9
  {
    if '0' <= c <= '9' then c as int - '0' as int else 0
  }

  function DigitChar(d: nat): (c: char)
    requires d <= 9
    ensures '0' <= c <= '9' && Digit(c) == d
  {
    '0' + d as char
  }

  predicate IsDigits(s: seq<char>) {
    forall i :: 0 <= i < |s| ==> '0' <= s[i] <= '9'
  }

  /** The number written in decimal. */
  ghost function DecVal(s: seq<char>): nat {
    if |s| == 0 then 0 else 10 * DecVal(s[..|s| - 1]) + Digit(s[|s| - 1])
  }

  /** Decimal digits without a leading or a trailing zero. */
  ghost predicate Significant(s: seq<char>) {
    |s| > 0 && IsDigits(s) && s[0] != '0' && s[|s| - 1] != '0'
  }

  lemma {:induction false} DecSnoc(s: seq<char>, c: char)
    ensures DecVal(s + [c]) == 10 * DecVal(s) + Digit(c)
  {
  }

  lemma {:induction false} DecOne(s: seq<char>)
    requires |s| == 1
    ensures DecVal(s) == Digit(s[0])
  {
  }

  lemma {:induction false} DecBounds(s: seq<char>)
    ensures DecVal(s) < Pow(10, |s|)
    ensures |s| > 0 && '1' <= s[0] <= '9' ==> DecVal(s) >= Pow(10, |s| - 1)
    decreases |s|
  {
    if |s| > 0 {
      var t := s[..|s| - 1];
      DecBounds(t);
      if |s| > 1 {
        assert t[0] == s[0];
      }
    }
  }

  /** Digits d followed by zeros or nines. */
  lemma {:induction false} DecTail(s: seq<char>, n: nat, tail: char)
    requires n <= |s| && (tail == '0' || tail == '9') && forall i :: n <= i < |s| ==> s[i] == tail
    ensures tail == '0' ==> DecVal(s) == DecVal(s[..n]) * Pow(10, |s| - n)
    ensures tail == '9' ==> DecVal(s) + 1 == (DecVal(s[..n]) + 1) * Pow(10, |s| - n)
    decreases |s|
  {
    if n == |s| {
      assert s[..n] == s;
    } else {
      var t := s[..|s| - 1];
      DecTail(t, n, tail);
      assert t[..n] == s[..n];
      var v, p := DecVal(s[..n]), Pow(10, |t| - n);
      MulAssoc(10, v, p);
      MulAssoc(v, 10, p);
      MulAssoc(10, v + 1, p);
      MulAssoc(v + 1, 10, p);
    }
  }

  /**
   Add one to the number in the first n characters: drop the nines at the end
   and count up the digit before them; if there is none, the number is a power
   of ten and its exponent grows.
   */
  method RoundOff(buf: array<char>, n: nat) returns (m: nat, carry: nat)
    requires 1 <= n <= buf.Length && IsDigits(buf[..n])
    modifies buf
    ensures 1 <= m <= n && carry <= 1 && IsDigits(buf[..m]) && buf[m - 1] != '0'
    ensures old(buf[0]) != '0' ==> buf[0] != '0'
    ensures DecVal(buf[..m]) * Pow(10, n - m + carry) == old(DecVal(buf[..n])) + 1
    ensures carry == 1 ==> m == 1 && buf[0] == '1'
    ensures carry == 1 <==> forall i :: 0 <= i < n ==> old(buf[i]) == '9'
  {
    hide Pow;
    ghost var s := buf[..n];
    m := n;
    while buf[m - 1] == '9'
      invariant 1 <= m <= n
      invariant forall i :: m <= i < n ==> s[i] == '9'
      decreases m
    {
      m := m - 1;
      if m == 0 {
        DecTail(s, 0, '9');
        buf[0] := '1';
        DecOne(buf[..1]);
        assert Pow(10, n - 1 + 1) == Pow(10, n);
        return 1, 1;
      }
    }
    DecTail(s, m, '9');
    assert s[..m] == buf[..m];
    CountUp(buf, m);
    carry := 0;
  }

  /** Count up the last of the first m characters. */
  method CountUp(buf: array<char>, m: nat)
    requires 1 <= m <= buf.Length && IsDigits(buf[..m]) && buf[m - 1] != '9'
    modifies buf
    ensures IsDigits(buf[..m]) && buf[m - 1] != '0' && forall i :: 0 <= i < buf.Length && i != m - 1 ==> buf[i] == old(buf[i])
    ensures DecVal(buf[..m]) == old(DecVal(buf[..m])) + 1
    ensures old(buf[0]) != '0' ==> buf[0] != '0'
  {
    ghost var high := buf[..m - 1];
    assert buf[..m] == high + [buf[m - 1]];
    DecSnoc(high, buf[m - 1]);
    buf[m - 1] := buf[m - 1] + 1 as char;
    assert buf[..m] == high + [buf[m - 1]];
    DecSnoc(high, buf[m - 1]);
  }

  /** Drop the zeros at the end of a number that does not start with one. */
  method TrimZeros(buf: array<char>, n: nat) returns (m: nat)
    requires 1 <= n <= buf.Length && IsDigits(buf[..n]) && buf[0] != '0'
    ensures 1 <= m <= n && Significant(buf[..m])
    ensures DecVal(buf[..m]) * Pow(10, n - m) == DecVal(buf[..n])
  {
    m := n;
    while buf[m - 1] == '0'
      invariant 1 <= m <= n
      invariant forall i :: m <= i < n ==> buf[i] == '0'
      decreases m
    {
      m := m - 1;
    }
    assert buf[..n][..m] == buf[..m];
    DecTail(buf[..n], m, '0');
  }
}
