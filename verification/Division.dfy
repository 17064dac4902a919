/**
 One-digit division in place, and the normalisation of the divisor that makes
 a single trial quotient good enough.
 */
module Division {
  import opened Words
  import opened Bigints
  import opened Subtraction

  // ---- hi0bits ----

  /** The number of leading zero bits of a word. */
  method LeadingZeros(w: Word) returns (k: nat)
    ensures k <= 32 && (k == 32 <==> w == 0)
    ensures k < 32 ==> Pow(2, 31) <= w * Pow(2, k) < Pow(2, 32)
  {
    SmallPowers();
    var x := w;
    k := 0;
    if x < 0x1_0000 {
      k := 16;
      x := x * 0x1_0000;
    }
    if x < 0x100_0000 {
      k := k + 8;
      x := x * 0x100;
    }
    if x < 0x1000_0000 {
      k := k + 4;
      x := x * 0x10;
    }
    PowAdd(2, k, 2);
    if x < 0x4000_0000 {
      k := k + 2;
      x := x * 4;
    }
    PowAdd(2, k, 1);
    if x < 0x8000_0000 {
      k := k + 1;
      if x < 0x4000_0000 {
        return 32;
      }
    }
  }

  lemma {:induction false} SmallPowers()
    ensures Pow(2, 1) == 2 && Pow(2, 2) == 4 && Pow(2, 4) == 0x10 && Pow(2, 8) == 0x100 && Pow(2, 12) == 0x1000
    ensures Pow(2, 16) == 0x1_0000 && Pow(2, 20) == 0x10_0000 && Pow(2, 24) == 0x100_0000 && Pow(2, 28) == 0x1000_0000
    ensures Pow(2, 27) == 0x800_0000 && Pow(2, 31) == 0x8000_0000 && Pow(2, 32) == 0x1_0000_0000
  {
  }

  // ---- quorem ----

  /** b's words so far, plus q times those of s, are b's old words but for what is still to be taken off. */
  ghost predicate Pending(low: seq<nat>, bw: seq<nat>, sw: seq<nat>, q: nat, owed: nat) {
    |low| <= |bw| && |low| <= |sw|
    && Val(low) + Val(sw[..|low|]) * q == Val(bw[..|low|]) + owed * Place(|low|)
  }

  lemma {:induction false} PendingStep(low: seq<nat>, bw: seq<nat>, sw: seq<nat>, q: nat, carry: nat, borrow: nat, ys: nat, y: nat)
    requires Pending(low, bw, sw, q, borrow + carry) && borrow <= 1 && |low| < |bw| && |low| < |sw|
    requires bw[|low|] < 0x1_0000_0000 && ys == sw[|low|] * q + carry && y == Wrap64(bw[|low|] - Low(ys) - borrow)
    ensures Pending(low + [Low(y)], bw, sw, q, Borrow(y) + High(ys))
  {
    var i := |low|;
    WrappedDifference(bw[i], Low(ys), borrow);
    ValSnoc(low, Low(y));
    ValTake(bw, i);
    ValTake(sw, i);
    PendingWeight(Val(low), Val(sw[..i]), Val(bw[..i]), q, Place(i), sw[i], bw[i], carry, borrow, ys, y);
  }

  lemma {:induction false} PendingWeight(l: nat, s: nat, b: nat, q: nat, p: nat, si: nat, bi: nat, carry: nat, borrow: nat, ys: nat, y: nat)
    requires l + s * q == b + (borrow + carry) * p && ys == si * q + carry
    requires bi - Low(ys) - borrow == Low(y) - Borrow(y) * 0x1_0000_0000
    ensures (l + Low(y) * p) + (s + si * p) * q == (b + bi * p) + (Borrow(y) + High(ys)) * (0x1_0000_0000 * p)
  {
  }

  /** Subtract q times the first n words of s from those of b, in place. */
  method SubtractMultiple(b: array<Word>, s: array<Word>, n: nat, q: Word)
    requires b != s && n <= b.Length && n <= s.Length && Val(s[..n]) * q <= Val(b[..n])
    modifies b
    ensures Val(b[..n]) == old(Val(b[..n])) - Val(s[..n]) * q
  {
    ghost var bw: seq<nat>, sw: seq<nat> := b[..n], s[..n];
    var carry: Word, borrow: Word := 0, 0;
    ghost var low: seq<nat> := [];
    var i := 0;
    while i < n
      invariant 0 <= i <= n && |low| == i && borrow <= 1
      invariant b[..i] == low && b[i..] == old(b[i..])
      invariant Pending(low, bw, sw, q, borrow + carry)
    {
      assert b[i] == b[i..][0] == old(b[i..])[0] == bw[i];
      var ys: nat := s[i] * q + carry;
      Fits64(s[i], q, 0, carry);
      var y := Wrap64(b[i] - Low(ys) - borrow);
      PendingStep(low, bw, sw, q, carry, borrow, ys, y);
      carry := High(ys);
      borrow := Borrow(y);
      b[i] := Low(y);
      low := low + [Low(y)];
      i := i + 1;
    }
    NothingOwed(low, bw, sw, q, borrow + carry);
  }

  lemma {:induction false} NothingOwed(low: seq<nat>, bw: seq<nat>, sw: seq<nat>, q: nat, owed: nat)
    requires Pending(low, bw, sw, q, owed) && |low| == |bw| == |sw| && AreWords(low) && Val(sw) * q <= Val(bw)
    ensures Val(low) == Val(bw) - Val(sw) * q
  {
    assert sw[..|low|] == sw && bw[..|low|] == bw;
    ValBound(low);
    if owed > 0 {
      MulMono(1, owed, Place(|low|));
    }
  }

  /** The count of the n + 1 words that is left after a subtraction: at least one, except of one word. */
  method Shorten(b: Bigint, n: nat)
    requires b.Valid() && b.wds == n + 1
    modifies b`wds
    ensures b.Reduced() && b.Value() == old(b.Value())
    ensures b.wds <= n + 1 && (b.wds == n + 1 <==> b.x[n] != 0)
    ensures b.wds == 0 ==> n == 0
  {
    if b.x[n] == 0 {
      var m := n;
      while m > 1 && b.x[m - 1] == 0
        invariant 0 <= m <= n && (n > 0 ==> m > 0)
        invariant forall j :: m <= j <= n ==> b.x[j] == 0
      {
        m := m - 1;
      }
      assert b.x[..n + 1][..m] == b.x[..m];
      ValTrim(b.x[..n + 1], m);
      b.wds := m;
    }
  }

  /** The bounds that the top word sets. */
  lemma {:induction false} TopBounds(s: seq<nat>)
    requires |s| > 0 && AreWords(s)
    ensures s[|s| - 1] * Place(|s| - 1) <= Val(s) < (s[|s| - 1] + 1) * Place(|s| - 1)
  {
    var n := |s| - 1;
    assert s == s[..n] + [s[n]];
    ValSnoc(s[..n], s[n]);
    ValBound(s[..n]);
    MulDistrib(Place(n), s[n], 1);
  }

  lemma {:induction false} TrialSmall(b: nat, s: nat, bt: nat, st: nat, p: nat, q: nat)
    requires p > 0 && bt * p <= b < 10 * s && s < (st + 1) * p && q == bt / (st + 1)
    ensures q <= 9
  {
    MulAssoc(10, st + 1, p);
    MulCancel(bt, 10 * (st + 1), p);
    DivBound(bt, st + 1, 10);
  }

  lemma {:induction false} TrialLow(b: nat, s: nat, bt: nat, st: nat, p: nat, q: nat)
    requires bt * p <= b && s < (st + 1) * p && q == bt / (st + 1)
    ensures s * q <= b
  {
  }

  lemma {:induction false} TrialHigh(b: nat, s: nat, bt: nat, st: nat, p: nat, q: nat)
    requires b < (bt + 1) * p && st * p <= s && q == bt / (st + 1) && q <= 9 && st >= 10
    ensures b < s * q + 2 * s
  {
    var t, u := st + 1, q + 2;
    assert bt < (q + 1) * t;
    assert (q + 1) * t <= u * st by {
      MulDistrib(q + 1, st, 1);
      MulDistrib(st, q + 1, 1);
    }
    MulMono(bt + 1, u * st, p);
    MulAssoc(u, st, p);
    MulMono(st * p, s, u);
    MulDistrib(s, q, 2);
  }

  /** The trial quotient is the true one, or one less. */
  lemma {:induction false} TrialQuotient(b: nat, s: nat, bt: nat, st: nat, p: nat, q: nat)
    requires p > 0 && bt * p <= b < (bt + 1) * p && st * p <= s < (st + 1) * p
    requires q == bt / (st + 1) && b < 10 * s && st >= 10
    ensures q <= 9 && s * q <= b < s * q + 2 * s
  {
    TrialSmall(b, s, bt, st, p, q);
    TrialLow(b, s, bt, st, p, q);
    TrialHigh(b, s, bt, st, p, q);
  }

  lemma {:induction false} Quotient(b: nat, s: nat, q: nat, r: nat)
    requires s > 0 && b == s * q + r && r < s
    ensures b / s == q && b % s == r
  {
    DivUnique(b, s, q, r);
  }

  /** Exactly four leading zero bits in the top word. */
  ghost predicate Divisor(s: Bigint)
    reads s, s.x
  {
    s.Normal() && 0x800_0000 <= s.x[s.wds - 1] < 0x1000_0000
  }

  /** A dividend below ten times the divisor has no more words than it. */
  lemma {:induction false} NoOversize(b: seq<nat>, s: seq<nat>)
    requires |s| > 0 && AreWords(s) && s[|s| - 1] < 0x1000_0000 && Val(b) < 10 * Val(s)
    requires |b| <= 1 || b[|b| - 1] != 0
    ensures |b| <= |s|
  {
    if |b| > |s| {
      ValTop(b);
      PlaceMono(|s|, |b| - 1);
      TopBounds(s);
      MulMono(s[|s| - 1] + 1, 0x1000_0000, Place(|s| - 1));
    }
  }

  lemma {:induction false} DivisorPositive(s: Bigint)
    requires Divisor(s)
    ensures s.Value() > 0
  {
    ValTop(s.x[..s.wds]);
    PlacePos(s.wds - 1);
  }

  /** The trial quotient of equally long numbers, from their top words. */
  lemma {:induction false} TopQuotient(bw: seq<nat>, sw: seq<nat>, bt: nat, st: nat, q: nat)
    requires |bw| == |sw| > 0 && AreWords(bw) && AreWords(sw) && Val(bw) < 10 * Val(sw)
    requires bt == bw[|bw| - 1] && st == sw[|sw| - 1] >= 10 && q == bt / (st + 1)
    ensures q <= 9 && Val(sw) * q <= Val(bw) < Val(sw) * q + 2 * Val(sw)
  {
    var n := |sw| - 1;
    TopBounds(bw);
    TopBounds(sw);
    PlacePos(n);
    TrialQuotient(Val(bw), Val(sw), bt, st, Place(n), q);
  }

  /** b is divided by s in place: the quotient is returned and b is left with the remainder. */
  method QuoRem(b: Bigint, s: Bigint) returns (q: nat)
    requires b.Reduced() && Divisor(s) && b != s && b.x != s.x && b.Value() < 10 * s.Value()
    modifies b`wds, b.x
    ensures b.Reduced() && q <= 9
    ensures s.Value() > 0 && q == old(b.Value()) / s.Value() && b.Value() == old(b.Value()) % s.Value()
  {
    DivisorPositive(s);
    NoOversize(b.x[..b.wds], s.x[..s.wds]);
    if b.wds < s.wds {
      LongerLarger(s.x[..s.wds], b.x[..b.wds]);
      Quotient(b.Value(), s.Value(), 0, b.Value());
      return 0;
    }
    q := DivideTop(b, s);
  }

  /** The case of equally many words: one trial quotient, and at most one correction. */
  method DivideTop(b: Bigint, s: Bigint) returns (q: nat)
    requires b.Reduced() && Divisor(s) && b != s && b.x != s.x && b.Value() < 10 * s.Value()
    requires b.wds == s.wds
    modifies b`wds, b.x
    ensures b.Reduced() && q <= 9
    ensures s.Value() > 0 && q == old(b.Value()) / s.Value() && b.Value() == old(b.Value()) % s.Value()
  {
    ghost var bv, sv := b.Value(), s.Value();
    var n := s.wds - 1;
    DivisorPositive(s);
    q := TakeTrial(b, s, n);
    var c := Cmp(b, s);
    if c >= 0 {
      Correct(b, s, n);
      MulDistrib(sv, q, 1);
      q := q + 1;
    }
    Quotient(bv, sv, q, b.Value());
    assert q <= 9 by { DivBound(bv, sv, 10); }
  }

  /** Take off the trial quotient's multiple of s, which leaves less than two. */
  method TakeTrial(b: Bigint, s: Bigint, n: nat) returns (q: nat)
    requires b.Reduced() && Divisor(s) && b != s && b.x != s.x && b.Value() < 10 * s.Value()
    requires b.wds == s.wds == n + 1
    modifies b`wds, b.x
    ensures b.Reduced() && q <= 9 && b.wds <= n + 1
    ensures old(b.Value()) == s.Value() * q + b.Value() && b.Value() < 2 * s.Value()
  {
    q := TrialDigit(b.x[n], s.x[n], b.x[..n + 1], s.x[..n + 1]);
    if q != 0 {
      ghost var bv, product := b.Value(), s.Value() * q;
      SubtractMultiple(b.x, s.x, n + 1, q);
      assert b.Value() == bv - product;
      Shorten(b, n);
    }
  }

  /** The trial quotient: the quotient of the top words, the divisor's taken one too large. */
  method TrialDigit(bt: Word, st: Word, ghost bw: seq<nat>, ghost sw: seq<nat>) returns (q: nat)
    requires |bw| == |sw| > 0 && AreWords(bw) && AreWords(sw) && Val(bw) < 10 * Val(sw)
    requires bt == bw[|bw| - 1] && st == sw[|sw| - 1] >= 10
    ensures q <= 9 && Val(sw) * q <= Val(bw) < Val(sw) * q + 2 * Val(sw)
  {
    q := bt / (st + 1);
    TopQuotient(bw, sw, bt, st, q);
  }

  /** Take off one more s. */
  method Correct(b: Bigint, s: Bigint, n: nat)
    requires b.Reduced() && Divisor(s) && b != s && b.x != s.x && s.wds == n + 1 >= b.wds
    requires b.Value() >= s.Value()
    modifies b`wds, b.x
    ensures b.Reduced() && b.Value() == old(b.Value()) - s.Value()
  {
    assert b.wds == n + 1 by {
      DivisorPositive(s);
      if b.wds < n + 1 {
        LongerLarger(s.x[..s.wds], b.x[..b.wds]);
      }
    }
    SubtractMultiple(b.x, s.x, n + 1, 1);
    Shorten(b, n);
  }
}
