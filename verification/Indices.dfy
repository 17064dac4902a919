/**
 Array indexes, their decimal strings and property ids: printing and parsing undo
 each other, and every integer name has one canonical id.
 */
module Indices {
  import opened Words
  import opened Decimals

  const MAX_ARRAY_INDEX: nat := 0xFFFF_FFFE
  const INT_MAX: int := 0x3FFF_FFFF
  const INT_MIN: int := -0x4000_0000

  // ---- canonical decimals ----

  /** The decimal of a number, without leading zeros. */
  function ToDecimal(n: nat): (s: string)
    ensures |s| > 0 && IsDigits(s)
  {
    if n < 10 then [DigitChar(n)] else ToDecimal(n / 10) + [DigitChar(n % 10)]
  }

  ghost predicate Canonical(s: string) {
    |s| > 0 && IsDigits(s) && (s[0] == '0' ==> |s| == 1)
  }

  lemma {:induction false} DecimalOfNumber(n: nat)
    ensures DecVal(ToDecimal(n)) == n && Canonical(ToDecimal(n)) && (ToDecimal(n)[0] == '0' <==> n == 0)
  {
    if n < 10 {
      DecOne(ToDecimal(n));
    } else {
      DecimalOfNumber(n / 10);
      DecSnoc(ToDecimal(n / 10), DigitChar(n % 10));
    }
  }

  lemma {:induction false} NumberOfDecimal(s: string)
    requires Canonical(s)
    ensures ToDecimal(DecVal(s)) == s
    decreases |s|
  {
    var c := s[|s| - 1];
    assert c == DigitChar(Digit(c));
    if |s| == 1 {
      DecOne(s);
      assert s == [c];
    } else {
      var t := s[..|s| - 1];
      assert t[0] == s[0];
      DecBounds(t);
      NumberOfDecimal(t);
      PowPos(10, |t| - 1);
      var n := DecVal(s);
      assert n == 10 * DecVal(t) + Digit(c) && n / 10 == DecVal(t) && n % 10 == Digit(c);
      assert s == t + [c];
    }
  }

  /** A number with at most n digits. */
  lemma {:induction false} DecimalLength(n: nat, digits: nat)
    requires n < Pow(10, digits) && digits > 0
    ensures |ToDecimal(n)| <= digits
    decreases digits
  {
    if n >= 10 {
      assert digits > 1 by { assert Pow(10, 0) == 1 && Pow(10, 1) == 10; }
      DecimalLength(n / 10, digits - 1);
    }
  }

  /** Write the decimal of an index just before end, backwards. */
  method BackfillIndex(index: nat, buf: array<char>, end: nat) returns (start: nat)
    requires index <= 0xFFFF_FFFF && 10 <= end <= buf.Length
    modifies buf
    ensures end - 10 <= start < end && buf[start..end] == ToDecimal(index)
    ensures buf[..start] == old(buf[..start]) && buf[end..] == old(buf[end..])
  {
    start := end;
    var rest: nat := index;
    ghost var tail: string := [];
    IndexDigits(index);
    while true
      invariant end - 10 < start <= end && rest < Pow(10, 10 - (end - start))
      invariant buf[start..end] == tail && (if tail == [] then rest == index else rest > 0 && ToDecimal(index) == ToDecimal(rest) + tail)
      invariant buf[..start] == old(buf[..start]) && buf[end..] == old(buf[end..])
      decreases start
    {
      var next, digit := rest / 10, rest % 10;
      start := start - 1;
      buf[start] := DigitChar(digit);
      assert buf[start..end] == [DigitChar(digit)] + tail;
      BackfillStep(index, rest, tail);
      tail := [DigitChar(digit)] + tail;
      rest := next;
      if rest == 0 {
        break;
      }
      assert end - 10 < start by { assert Pow(10, 0) == 1; }
    }
  }

  lemma {:induction false} BackfillStep(index: nat, rest: nat, tail: string)
    requires if tail == [] then rest == index else rest > 0 && ToDecimal(index) == ToDecimal(rest) + tail
    ensures var longer := [DigitChar(rest % 10)] + tail;
      if rest / 10 == 0 then ToDecimal(index) == longer else ToDecimal(index) == ToDecimal(rest / 10) + longer
  {
  }

  lemma {:induction false} IndexDigits(index: nat)
    requires index <= 0xFFFF_FFFF
    ensures index < Pow(10, 10)
  {
  }

  // ---- array indexes ----

  /** The string is the decimal of an array index. */
  ghost predicate NamesIndex(s: string, index: nat) {
    index <= MAX_ARRAY_INDEX && s == ToDecimal(index)
  }

  /** What a name of an index looks like. */
  lemma {:induction false} IndexForm(s: string)
    ensures forall i: nat :: NamesIndex(s, i) ==> Canonical(s) && DecVal(s) == i && |s| <= 10
  {
    forall i: nat | NamesIndex(s, i)
      ensures Canonical(s) && DecVal(s) == i && |s| <= 10
    {
      DecimalOfNumber(i);
      IndexDigits(i);
      DecimalLength(i, 10);
    }
  }

  /** Nine digits fit in 32 bits. */
  lemma {:induction false} NineDigits(s: string)
    requires |s| <= 9
    ensures DecVal(s) < 1_000_000_000
  {
    DecBounds(s);
    PowMono(10, |s|, 9);
    assert Pow(10, 4) == 10000;
    PowAdd(10, 4, 5);
    assert Pow(10, 5) == 100000;
  }

  /** Looking at the accumulator before the last digit tells whether the number exceeds a limit. */
  lemma {:induction false} OverflowTest(value: nat, previous: nat, c: nat, limit: nat)
    requires c <= 9 && limit >= 9 && (value == 10 * previous + c || (previous == 0 && c == 0 && value <= 9))
    ensures (previous < limit / 10 || (previous == limit / 10 && c <= limit % 10)) <==> value <= limit
  {
  }

  /** The accumulator has not wrapped around before the last of ten digits. */
  lemma {:induction false} AccumulateStep(s: string, k: nat, index: nat)
    requires 1 <= k < |s| <= 10 && index == Low(DecVal(s[..k]))
    ensures index == DecVal(s[..k]) && DecVal(s[..k + 1]) == 10 * index + Digit(s[k])
  {
    NineDigits(s[..k]);
    assert s[..k + 1] == s[..k] + [s[k]];
    DecSnoc(s[..k], s[k]);
  }

  /** Whether a string names an array index, and which; the accumulator has 32 bits. */
  method StringIsArrayIndex(s: string) returns (ok: bool, index: nat)
    ensures ok ==> NamesIndex(s, index)
    ensures !ok ==> forall i: nat :: !NamesIndex(s, i)
  {
    IndexForm(s);
    if |s| == 0 || |s| > 10 || !('0' <= s[0] <= '9') {
      return false, 0;
    }
    if s[0] == '0' && |s| > 1 {
      return false, 0;
    }
    var c, previous, digits;
    index, c, previous, digits := Accumulate(s);
    if !digits {
      return false, 0;
    }
    IndexDecision(s, index, c, previous);
    ok := previous < MAX_ARRAY_INDEX / 10 || (previous == MAX_ARRAY_INDEX / 10 && c <= MAX_ARRAY_INDEX % 10);
  }

  lemma {:induction false} IndexDecision(s: string, index: nat, c: nat, previous: nat)
    requires Canonical(s) && c <= 9 && index == Low(DecVal(s))
    requires DecVal(s) == if |s| > 1 then 10 * previous + c else Digit(s[0])
    requires |s| == 1 ==> c == 0 && previous == 0
    ensures (previous < MAX_ARRAY_INDEX / 10 || (previous == MAX_ARRAY_INDEX / 10 && c <= MAX_ARRAY_INDEX % 10))
         <==> NamesIndex(s, index)
    ensures !NamesIndex(s, index) ==> forall i: nat :: !NamesIndex(s, i)
  {
    IndexForm(s);
    NumberOfDecimal(s);
    OverflowTest(DecVal(s), previous, c, MAX_ARRAY_INDEX);
  }

  /** The 32-bit accumulator over at most ten digits, its last digit and the accumulator before it. */
  method Accumulate(s: string) returns (index: nat, c: nat, previous: nat, digits: bool)
    requires 1 <= |s| <= 10 && '0' <= s[0] <= '9'
    ensures digits <==> IsDigits(s)
    ensures digits ==> c <= 9 && index == Low(DecVal(s))
    ensures digits ==> DecVal(s) == if |s| > 1 then 10 * previous + c else Digit(s[0])
    ensures digits && |s| == 1 ==> c == 0 && previous == 0
  {
    c, previous := 0, 0;
    index := Digit(s[0]);
    DecOne(s[..1]);
    var k := 1;
    while k < |s|
      invariant 1 <= k <= |s| && IsDigits(s[..k]) && c <= 9
      invariant DecVal(s[..k]) == if k > 1 then 10 * previous + c else Digit(s[0])
      invariant k == 1 ==> c == 0 && previous == 0
      invariant index == Low(DecVal(s[..k]))
    {
      if !('0' <= s[k] <= '9') {
        return 0, 0, 0, false;
      }
      AccumulateStep(s, k, index);
      previous := index;
      c := Digit(s[k]);
      index := Low(10 * index + c);
      k := k + 1;
    }
    assert s[..k] == s;
    digits := true;
  }

  // ---- ids ----

  /** A property id: a small integer, or an atom with its characters. */
  datatype Id = IntId(i: int) | AtomId(chars: string)

  function IntString(v: int): string {
    if v < 0 then "-" + ToDecimal(-v) else ToDecimal(v)
  }

  /** The name of the property. */
  function NameOf(id: Id): string {
    match id
    case IntId(i) => IntString(i)
    case AtomId(chars) => chars
  }

  ghost predicate InRange(v: int) {
    INT_MIN <= v <= INT_MAX
  }

  /** The string is the decimal of an integer that has an int id. */
  ghost predicate NamesInt(s: string, v: int) {
    InRange(v) && s == IntString(v)
  }

  ghost predicate ValidId(id: Id) {
    id.IntId? ==> InRange(id.i)
  }

  /** The one id for the name: the int id if there is one. */
  ghost function CanonicalId(id: Id): Id {
    if id.AtomId? && exists v :: NamesInt(id.chars, v) then
      var v :| NamesInt(id.chars, v);
      IntId(v)
    else id
  }

  lemma {:induction false} IntStringInjective(v: int, w: int)
    requires IntString(v) == IntString(w)
    ensures v == w
  {
    DecimalOfNumber(if v < 0 then -v else v);
    DecimalOfNumber(if w < 0 then -w else w);
    assert v < 0 <==> IntString(v)[0] == '-';
    assert w < 0 <==> IntString(w)[0] == '-';
    if v < 0 {
      assert ToDecimal(-v) == IntString(v)[1..] == IntString(w)[1..] == ToDecimal(-w);
    }
  }

  /** Ids name the same property exactly when their canonical ids are equal. */
  lemma {:induction false} CanonicalIdsAgree(a: Id, b: Id)
    requires ValidId(a) && ValidId(b)
    ensures NameOf(a) == NameOf(b) <==> CanonicalId(a) == CanonicalId(b)
    ensures CanonicalId(CanonicalId(a)) == CanonicalId(a) && NameOf(CanonicalId(a)) == NameOf(a)
  {
    CanonicalOfName(a);
    CanonicalOfName(b);
  }

  lemma {:induction false} CanonicalOfName(a: Id)
    requires ValidId(a)
    ensures NameOf(CanonicalId(a)) == NameOf(a) && ValidId(CanonicalId(a))
    ensures forall v :: NamesInt(NameOf(a), v) ==> CanonicalId(a) == IntId(v)
    ensures CanonicalId(a).IntId? ==> NamesInt(NameOf(a), CanonicalId(a).i)
    ensures CanonicalId(a).AtomId? ==> CanonicalId(a) == AtomId(NameOf(a))
  {
    forall v | NamesInt(NameOf(a), v)
      ensures CanonicalId(a) == IntId(v)
    {
      if a.IntId? {
        IntStringInjective(v, a.i);
      } else {
        IntStringInjective(v, CanonicalId(a).i);
      }
    }
  }

  /** The character at k of a string with a terminator. */
  function CharAt(s: string, k: nat): char {
    if k < |s| then s[k] else '\0'
  }

  /** What the name of an int looks like, after the sign. */
  lemma {:induction false} IntForm(s: string)
    ensures forall v :: NamesInt(s, v) ==>
      var t := if v < 0 then s[1..] else s;
      (v < 0 <==> CharAt(s, 0) == '-') && Canonical(t) && |t| <= 10 && DecVal(t) == (if v < 0 then -v else v)
  {
    forall v | NamesInt(s, v)
      ensures var t := if v < 0 then s[1..] else s;
        (v < 0 <==> CharAt(s, 0) == '-') && Canonical(t) && |t| <= 10 && DecVal(t) == (if v < 0 then -v else v)
    {
      var n := if v < 0 then -v else v;
      DecimalOfNumber(n);
      IndexDigits(n);
      DecimalLength(n, 10);
      if v < 0 {
        assert s[1..] == ToDecimal(n);
      }
    }
  }

  /** The int id of a string that names a small integer; any other id stays. */
  method CheckForStringIndex(id: Id) returns (r: Id)
    requires ValidId(id)
    ensures r == CanonicalId(id)
  {
    CanonicalOfName(id);
    if id.IntId? {
      return id;
    }
    var s := id.chars;
    IntForm(s);
    var negative := CharAt(s, 0) == '-';
    if negative {
      s := s[1..];
    }
    if !('0' <= CharAt(s, 0) <= '9') || |s| > 10 {
      return id;
    }
    var fits, v := SmallInteger(s, negative);
    if fits {
      assert negative ==> id.chars == "-" + s;
      assert NamesInt(id.chars, v);
      return IntId(v);
    }
    return id;
  }

  /** The integer of a sign and a magnitude. */
  function Signed(negative: bool, n: int): int {
    if negative then -n else n
  }

  /** The integer written in s, if it is canonical, in range and not a negative zero. */
  method SmallInteger(s: string, negative: bool) returns (fits: bool, v: int)
    requires 1 <= |s| <= 10 && '0' <= s[0] <= '9'
    ensures fits <==> Canonical(s) && !(negative && DecVal(s) == 0) && InRange(Signed(negative, DecVal(s)))
    ensures fits ==> v == Signed(negative, DecVal(s)) && s == ToDecimal(DecVal(s))
  {
    if s[0] == '0' {
      fits := !negative && |s| == 1;
      v := 0;
      if |s| == 1 {
        DecOne(s);
      }
      return;
    }
    var index, c, old_, digits := Accumulate(s);
    if !digits {
      return false, 0;
    }
    NumberOfDecimal(s);
    NonZero(s);
    var limit := if negative then -INT_MIN else INT_MAX;
    OverflowTest(DecVal(s), old_, c, limit);
    fits := (!negative || index != 0) && (old_ < limit / 10 || (old_ == limit / 10 && c <= limit % 10));
    v := Signed(negative, index);
  }

  lemma {:induction false} NonZero(s: string)
    requires |s| > 0 && IsDigits(s) && s[0] != '0'
    ensures DecVal(s) > 0
  {
    DecBounds(s);
    PowPos(10, |s| - 1);
  }

  /** The id of an index. */
  method IndexToId(index: nat) returns (id: Id)
    requires index <= 0xFFFF_FFFF
    ensures ValidId(id) && NameOf(id) == ToDecimal(index) && CanonicalId(id) == id
  {
    if index <= INT_MAX {
      return IntId(index);
    }
    var buf := new char[10];
    var start := BackfillIndex(index, buf, 10);
    id := AtomId(buf[start..10]);
    assert forall v :: NamesInt(id.chars, v) ==> v == index by {
      forall v | NamesInt(id.chars, v)
        ensures v == index
      {
        IntStringInjective(v, index);
      }
    }
  }

  /** Whether an id is an array index, and which. */
  method IdIsIndex(id: Id) returns (ok: bool, index: nat)
    requires ValidId(id)
    ensures ok ==> NamesIndex(NameOf(id), index)
    ensures !ok ==> forall i: nat :: !NamesIndex(NameOf(id), i)
  {
    if id.IntId? {
      if id.i < 0 {
        IndexForm(NameOf(id));
        return false, 0;
      }
      return true, id.i;
    }
    ok, index := StringIsArrayIndex(id.chars);
  }

  /** Ids of indexes are indexes again, except that of 2^32 - 1. */
  method IndexRoundTrip(index: nat) returns (ok: bool, i: nat)
    requires index <= 0xFFFF_FFFF
    ensures ok <==> index <= MAX_ARRAY_INDEX
    ensures ok ==> i == index
  {
    var id := IndexToId(index);
    ok, i := IdIsIndex(id);
    DecimalOfNumber(index);
    if ok {
      DecimalOfNumber(i);
    } else {
      assert !NamesIndex(NameOf(id), index);
    }
  }
}
