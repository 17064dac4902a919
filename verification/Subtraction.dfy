/**
 Comparison and subtraction of magnitudes.  Subtraction runs in unsigned 64-bit
 arithmetic, so a negative difference wraps around and its bit 32 is the borrow.
 */
module Subtraction {
  import opened Words
  import opened Bigints

  // ---- cmp ----

  /** Equal words above i, and a smaller one at i. */
  lemma {:induction false} ValBelow(a: seq<nat>, b: seq<nat>, i: nat)
    requires |a| == |b| && i < |a| && AreWords(a) && a[i] < b[i] && a[i + 1..] == b[i + 1..]
    ensures Val(a) < Val(b)
    decreases i
  {
    if i > 0 {
      assert a[1..][i..] == a[i + 1..] && b[1..][i..] == b[i + 1..];
      ValBelow(a[1..], b[1..], i - 1);
    } else {
      assert a[1..] == b[1..];
    }
  }

  /** A longer trimmed number is larger, unless both are zero. */
  lemma {:induction false} LongerLarger(a: seq<nat>, b: seq<nat>)
    requires |a| > |b| && AreWords(b) && (|a| <= 1 || a[|a| - 1] != 0)
    ensures Val(a) > Val(b) || (Val(a) == Val(b) == 0 && |a| == 1)
  {
    ValBound(b);
    if |a| > 1 {
      ValTop(a);
      PlaceMono(|b|, |a| - 1);
    }
  }

  lemma {:induction false} PlaceMono(m: nat, n: nat)
    requires m <= n
    ensures Place(m) <= Place(n)
    decreases n
  {
    if m < n {
      PlaceMono(m, n - 1);
    }
  }

  /**
   The sign of a - b.  Zero has two encodings, with no word or with one; the
   number with more words then counts as larger.
   */
  method Cmp(a: Bigint, b: Bigint) returns (r: int)
    requires a.Trimmed() && b.Trimmed() && (a.wds > 0 || b.wds > 0)
    ensures r < 0 <==> a.Value() < b.Value() || (a.Value() == b.Value() && a.wds < b.wds)
    ensures r > 0 <==> a.Value() > b.Value() || (a.Value() == b.Value() && a.wds > b.wds)
    ensures a.Value() == b.Value() && a.wds != b.wds ==> a.Value() == 0 && a.wds + b.wds == 1
  {
    r := a.wds - b.wds;
    if r != 0 {
      if r > 0 {
        LongerLarger(a.x[..a.wds], b.x[..b.wds]);
      } else {
        LongerLarger(b.x[..b.wds], a.x[..a.wds]);
      }
      return;
    }
    ghost var aw: seq<nat>, bw: seq<nat> := a.x[..a.wds], b.x[..b.wds];
    var i := b.wds;
    while i > 0
      invariant 0 <= i <= b.wds && aw[i..] == bw[i..]
    {
      i := i - 1;
      assert aw[i + 1..] == bw[i + 1..];
      if a.x[i] < b.x[i] {
        ValBelow(aw, bw, i);
        return -1;
      } else if a.x[i] > b.x[i] {
        ValBelow(bw, aw, i);
        return 1;
      }
      assert aw[i..] == [aw[i]] + aw[i + 1..] && bw[i..] == [bw[i]] + bw[i + 1..];
    }
    assert aw == aw[0..] && bw == bw[0..];
    return 0;
  }

  // ---- diff ----

  /** x modulo 2^64. */
  function Wrap64(x: int): nat {
    x % 0x1_0000_0000_0000_0000
  }

  /** Bit 32 of a 64-bit difference. */
  function Borrow(y: nat): (r: Word)
    ensures r <= 1
  {
    High(y) % 2
  }

  /** The wrapped difference of a word and less than two words: its low half and its bit 32. */
  lemma {:induction false} WrappedDifference(a: Word, b: Word, borrow: nat)
    requires borrow <= 1
    ensures var y := Wrap64(a - b - borrow); a - b - borrow == Low(y) - Borrow(y) * 0x1_0000_0000
  {
  }

  /** Val(c) is Val(a) - Val(b) but for a borrow. */
  ghost predicate Difference(a: seq<nat>, b: seq<nat>, c: seq<nat>, borrow: nat) {
    |a| == |c| && Val(a) + borrow * Place(|a|) == Val(b) + Val(c)
  }

  lemma {:induction false} DifferenceStep(a: seq<nat>, b: seq<nat>, c: seq<nat>, b': seq<nat>, borrow: nat, ai: Word, bi: Word)
    requires Difference(a, b, c, borrow) && borrow <= 1 && Val(b') == Val(b) + bi * Place(|a|)
    ensures var y := Wrap64(ai - bi - borrow); Difference(a + [ai], b', c + [Low(y)], Borrow(y))
  {
    var y := Wrap64(ai - bi - borrow);
    WrappedDifference(ai, bi, borrow);
    ValSnoc(a, ai);
    ValSnoc(c, Low(y));
    DifferenceWeight(Place(|a|), ai, bi, borrow, Low(y), Borrow(y));
  }

  lemma {:induction false} DifferenceWeight(p: nat, ai: nat, bi: nat, borrow: nat, low: nat, next: nat)
    requires ai - bi - borrow == low - next * 0x1_0000_0000
    ensures ai * p + next * (0x1_0000_0000 * p) == bi * p + borrow * p + low * p
  {
  }

  /** c = a - b, word by word, for the wb words of b and then for the rest of a. */
  method SubtractWords(a: array<Word>, wa: nat, b: array<Word>, wb: nat, c: array<Word>) returns (borrow: Word)
    requires 1 <= wb <= wa <= a.Length && wb <= b.Length && wa <= c.Length && c != a && c != b
    modifies c
    ensures borrow <= 1 && Difference(a[..wa], b[..wb], c[..wa], borrow)
  {
    borrow := 0;
    var i := 0;
    while i < wb
      invariant 0 <= i <= wb && borrow <= 1 && Difference(a[..i], b[..i], c[..i], borrow)
    {
      var y := Wrap64(a[i] - b[i] - borrow);
      ghost var aw, bw, cw := a[..i], b[..i], c[..i];
      assert a[..i + 1] == aw + [a[i]] && b[..i + 1] == bw + [b[i]];
      ValSnoc(bw, b[i]);
      DifferenceStep(aw, bw, cw, b[..i + 1], borrow, a[i], b[i]);
      borrow := Borrow(y);
      c[i] := Low(y);
      assert c[..i + 1] == cw + [Low(y)];
      i := i + 1;
    }
    borrow := PropagateBorrow(a, wa, b[..wb], wb, c, borrow);
  }

  /** The words of a above those of b. */
  method PropagateBorrow(a: array<Word>, wa: nat, ghost bw: seq<nat>, wb: nat, c: array<Word>, borrow0: Word) returns (borrow: Word)
    requires wb <= wa <= a.Length && wa <= c.Length && c != a
    requires borrow0 <= 1 && Difference(a[..wb], bw, c[..wb], borrow0)
    modifies c
    ensures borrow <= 1 && Difference(a[..wa], bw, c[..wa], borrow)
  {
    borrow := borrow0;
    var i := wb;
    while i < wa
      invariant wb <= i <= wa && borrow <= 1 && Difference(a[..i], bw, c[..i], borrow)
    {
      var y := Wrap64(a[i] - borrow);
      ghost var aw, cw := a[..i], c[..i];
      assert a[..i + 1] == aw + [a[i]];
      DifferenceStep(aw, bw, cw, bw, borrow, a[i], 0);
      borrow := Borrow(y);
      c[i] := Low(y);
      assert c[..i + 1] == cw + [Low(y)];
      i := i + 1;
    }
  }

  /** Subtracting a smaller number leaves no borrow. */
  lemma {:induction false} NoBorrow(a: seq<nat>, b: seq<nat>, c: seq<nat>, borrow: nat)
    requires Difference(a, b, c, borrow) && AreWords(c) && borrow <= 1 && Val(a) >= Val(b)
    ensures borrow == 0 && Val(c) == Val(a) - Val(b)
  {
    ValBound(c);
  }

  /** |a - b|, with the sign set exactly when a < b. */
  method Diff(a: Bigint, b: Bigint) returns (c: Bigint)
    requires a.Normal() && b.Normal()
    ensures fresh(c) && fresh(c.x) && c.Normal()
    ensures c.sign == (a.Value() < b.Value())
    ensures c.Value() == if c.sign then b.Value() - a.Value() else a.Value() - b.Value()
  {
    var i := Cmp(a, b);
    if i == 0 {
      c := new Bigint(0);
      c.wds := 1;
      c.x[0] := 0;
      ValZeros(c.x[..1]);
      return;
    }
    if i < 0 {
      c := DiffLarger(b, a, true);
    } else {
      c := DiffLarger(a, b, false);
    }
  }

  /** The case of a larger first operand. */
  method DiffLarger(a: Bigint, b: Bigint, sign: bool) returns (c: Bigint)
    requires a.Normal() && b.Normal() && a.Value() > b.Value()
    ensures fresh(c) && fresh(c.x) && c.Normal() && c.sign == sign && c.Value() == a.Value() - b.Value()
  {
    c := new Bigint(a.k);
    c.sign := sign;
    WordsNeeded(a.x[..a.wds], b.x[..b.wds]);
    var borrow := SubtractWords(a.x, a.wds, b.x, b.wds, c.x);
    NoBorrow(a.x[..a.wds], b.x[..b.wds], c.x[..a.wds], borrow);
    DropZeros(c, a.wds);
  }

  /** Set the word count of a positive number to n less the zero words at the top. */
  method DropZeros(c: Bigint, n: nat)
    requires c.Valid() && n <= c.x.Length && Val(c.x[..n]) > 0
    modifies c`wds
    ensures c.Normal() && c.Value() == Val(c.x[..n])
  {
    var wa := n;
    ghost var words: seq<nat> := c.x[..n];
    while c.x[wa - 1] == 0
      invariant 0 < wa <= n
      invariant forall j :: wa <= j < n ==> words[j] == 0
      decreases wa
    {
      assert wa > 1 by {
        if wa == 1 {
          ValZeros(words);
        }
      }
      wa := wa - 1;
    }
    assert words[..wa] == c.x[..wa];
    ValTrim(words, wa);
    c.wds := wa;
  }

  /** The larger number has at least as many words. */
  lemma {:induction false} WordsNeeded(a: seq<nat>, b: seq<nat>)
    requires AreWords(a) && Val(a) > Val(b) && (|b| <= 1 || b[|b| - 1] != 0)
    ensures |b| <= |a| || |a| == 0
  {
    if |b| > |a| {
      LongerLarger(b, a);
    }
  }
}
