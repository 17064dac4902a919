/**
 Arbitrary-precision magnitudes on arrays of 32-bit words, in place where the
 original works in place.  The 64-bit intermediate results are explicit.
 */
module Bigints {
  import opened Words

  /** Products and sums are computed in 64 bits. */
  const WORD64: nat := 0x1_0000_0000_0000_0000

  class Bigint {
    const k: nat
    const x: array<Word>
    var sign: bool
    var wds: nat

    /** The capacity is a power of two. */
    ghost predicate Valid()
      reads this, x
    {
      x.Length == Pow(2, k) && wds <= x.Length
    }

    ghost function Value(): nat
      requires Valid()
      reads this, x
    {
      Val(x[..wds])
    }

    /** No leading zero word, except that zero may have one. */
    ghost predicate Trimmed()
      reads this, x
    {
      Valid() && (wds <= 1 || x[wds - 1] != 0)
    }

    /** A number that division may leave: a zero without words still has a zero first word. */
    ghost predicate Reduced()
      reads this, x
    {
      Trimmed() && x.Length > 0 && (wds == 0 ==> x[0] == 0)
    }

    /** At least one word. */
    ghost predicate Normal()
      reads this, x
    {
      Trimmed() && wds >= 1
    }

    /** `Balloc`. */
    constructor (k: nat)
      ensures this.k == k && Valid() && wds == 0 && !sign && fresh(x)
    {
      this.k := k;
      x := new Word[Pow(2, k)];
      sign, wds := false, 0;
    }
  }

  /** `i2b`: a number of one word. */
  method Small(w: Word) returns (b: Bigint)
    ensures fresh(b) && fresh(b.x) && b.Normal() && b.Value() == w && b.wds == 1 && !b.sign
  {
    b := new Bigint(1);
    assert b.x.Length == 2;
    b.x[0] := w;
    b.wds := 1;
    ValOne(b.x[..1]);
  }

  /** r is b, or a new number. */
  twostate predicate SameOrNew(b: Bigint, new r: Bigint) {
    r == b || (fresh(r) && fresh(r.x))
  }

  lemma {:induction false} CarryStep(v: nat, w: nat, p: nat, xi: nat, m: nat, a: nat, carry: nat, y: nat)
    requires v + carry * p == w * m + a && y == xi * m + carry
    ensures (v + Low(y) * p) + High(y) * (0x1_0000_0000 * p) == (w + xi * p) * m + a
  {
  }

  /** Multiply the first n words in place by m and add a; the carry out is returned. */
  method ScaleWords(x: array<Word>, n: nat, m: Word, a: Word) returns (carry: Word)
    requires n <= x.Length
    modifies x
    ensures Val(x[..n]) + carry * Place(n) == old(Val(x[..n])) * m + a
    ensures x[n..] == old(x[n..])
  {
    ghost var words: seq<nat> := x[..n];
    carry := a;
    ghost var low: seq<nat> := [];
    var i := 0;
    while i < n
      invariant 0 <= i <= n && |low| == i
      invariant x[i..] == old(x[i..]) && x[..i] == low
      invariant Val(low) + carry * Place(i) == Val(words[..i]) * m + a
    {
      assert x[i] == x[i..][0] == old(x[i..])[0] == words[i];
      var y: nat := x[i] * m + carry;
      Fits64(x[i], m, 0, carry);
      ScaledWord(low, words, i, m, a, carry);
      carry := High(y);
      x[i] := Low(y);
      low := low + [Low(y)];
      i := i + 1;
    }
    assert words[..n] == words;
  }

  lemma {:induction false} ScaledWord(low: seq<nat>, words: seq<nat>, i: nat, m: nat, a: nat, carry: nat)
    requires i < |words| && |low| == i && Val(low) + carry * Place(i) == Val(words[..i]) * m + a
    ensures var y := words[i] * m + carry; Val(low + [Low(y)]) + High(y) * Place(i + 1) == Val(words[..i + 1]) * m + a
  {
    var y := words[i] * m + carry;
    CarryStep(Val(low), Val(words[..i]), Place(i), words[i], m, a, carry, y);
    ValSnoc(low, Low(y));
    ValTake(words, i);
  }

  /** b * m + a. */
  method MultAdd(b: Bigint, m: Word, a: Word) returns (r: Bigint)
    requires b.Normal() && m > 0
    modifies b, b.x
    ensures r.Normal() && r.Value() == old(b.Value()) * m + a && r.sign == old(b.sign)
    ensures SameOrNew(b, r)
  {
    var wds := b.wds;
    ghost var value := b.Value();
    var carry := ScaleWords(b.x, wds, m, a);
    r := b;
    ghost var words := b.x[..wds];
    if carry == 0 {
      ScaledTop(old(b.x[..wds]), words, m, a);
      return;
    }
    if wds >= b.x.Length {
      r := new Bigint(b.k + 1);
      CopyWords(r, b);
    }
    r.x[wds] := carry;
    r.wds := wds + 1;
    assert r.x[..wds + 1] == words + [carry];
    ValSnoc(words, carry);
  }

  lemma {:induction false} Grows(v: nat, m: nat, a: nat)
    requires m > 0
    ensures v <= v * m + a
  {
  }

  lemma {:induction false} ScaledTop(before: seq<nat>, after: seq<nat>, m: nat, a: nat)
    requires |before| == |after| > 0 && AreWords(after) && m > 0 && Val(after) == Val(before) * m + a
    requires |before| > 1 ==> before[|before| - 1] != 0
    ensures |after| > 1 ==> after[|after| - 1] != 0
  {
    if |after| > 1 {
      ValTop(before);
      Grows(Val(before), m, a);
      TopNonzero(after);
    }
  }

  /** `Bcopy`: copy sign and words into a number with room for them. */
  method CopyWords(to: Bigint, from: Bigint)
    requires to.Valid() && from.Valid() && from.wds <= to.x.Length && to != from && to.x != from.x
    modifies to, to.x
    ensures to.Valid() && to.sign == from.sign && to.wds == from.wds && to.x[..to.wds] == from.x[..from.wds]
  {
    var i := 0;
    while i < from.wds
      invariant 0 <= i <= from.wds && to.x[..i] == from.x[..i]
    {
      to.x[i] := from.x[i];
      i := i + 1;
    }
    to.sign, to.wds := from.sign, from.wds;
  }

  /** A product of words plus two words fits in 64 bits, and its upper half is a word. */
  lemma {:induction false} Fits64(a: Word, y: Word, c: Word, carry: Word)
    ensures a * y + c + carry < WORD64 && High(a * y + c + carry) < 0x1_0000_0000
  {
    MulMono(a, 0xFFFF_FFFF, y);
  }

  lemma {:induction false} ProductStep(v: nat, w: nat, av: nat, p: nat, ai: nat, ci: nat, y: nat, carry: nat, z: nat)
    requires v + carry * p == w + av * y && z == ai * y + ci + carry
    ensures (v + Low(z) * p) + High(z) * (0x1_0000_0000 * p) == (w + ci * p) + (av + ai * p) * y
  {
  }

  lemma {:induction false} ProductWord(low: seq<nat>, row: seq<nat>, aw: seq<nat>, i: nat, y: nat, carry: nat, z: nat)
    requires i < |row| && i < |aw| && |low| == i
    requires RowSum(low, row, aw, y, carry) && z == aw[i] * y + row[i] + carry
    ensures RowSum(low + [Low(z)], row, aw, y, High(z))
  {
    ValSnoc(low, Low(z));
    ValTake(row, i);
    ValTake(aw, i);
    ProductStep(Val(low), Val(row[..i]), Val(aw[..i]), Place(i), aw[i], row[i], y, carry, z);
  }

  /** Carries of one row: the words of the row so far, and the carry, hold its old value plus the product. */
  ghost predicate RowSum(low: seq<nat>, row: seq<nat>, aw: seq<nat>, y: nat, carry: nat) {
    |low| <= |row| && |low| <= |aw|
    && Val(low) + carry * Place(|low|) == Val(row[..|low|]) + Val(aw[..|low|]) * y
  }

  /** One row of the multiplication: add y times the words of a into c, from position at on. */
  method AddRow(c: array<Word>, at: nat, a: array<Word>, wa: nat, y: Word) returns (carry: Word)
    requires c != a && 1 <= wa <= a.Length && at + wa < c.Length
    modifies c
    ensures c[..at] == old(c[..at]) && c[at + wa..] == old(c[at + wa..])
    ensures RowSum(c[at..at + wa], old(c[at..at + wa]), a[..wa], y, carry)
  {
    ghost var row: seq<nat> := c[at..at + wa];
    ghost var aw: seq<nat> := a[..wa];
    carry := 0;
    ghost var low: seq<nat> := [];
    var i := 0;
    while i < wa
      invariant 0 <= i <= wa && |low| == i
      invariant c[..at] == old(c[..at]) && c[at + i..] == old(c[at + i..]) && c[at..at + i] == low
      invariant RowSum(low, row, aw, y, carry)
    {
      assert c[at + i] == c[at + i..][0] == old(c[at + i..])[0] == row[i];
      var z: nat := a[i] * y + c[at + i] + carry;
      Fits64(a[i], y, c[at + i], carry);
      ProductWord(low, row, aw, i, y, carry, z);
      carry := High(z);
      c[at + i] := Low(z);
      low := low + [Low(z)];
      i := i + 1;
    }
  }

  method AddProduct(c: array<Word>, at: nat, a: array<Word>, wa: nat, y: Word)
    requires c != a && 1 <= wa <= a.Length && at + wa < c.Length && c[at + wa] == 0
    modifies c
    ensures Val(c[..at + wa + 1]) == old(Val(c[..at + wa])) + Place(at) * (Val(a[..wa]) * y)
    ensures c[at + wa + 1..] == old(c[at + wa + 1..])
  {
    ghost var bottom, row: seq<nat> := c[..at], c[at..at + wa];
    assert c[..at + wa] == bottom + row;
    var carry := AddRow(c, at, a, wa, y);
    ghost var low := c[at..at + wa];
    c[at + wa] := carry;
    assert c[..at + wa + 1] == bottom + (low + [carry]);
    assert row[..wa] == row && a[..wa][..wa] == a[..wa];
    ProductRow(bottom, low, row, carry, Val(a[..wa]) * y);
  }

  lemma {:induction false} ProductRow(bottom: seq<nat>, low: seq<nat>, row: seq<nat>, carry: nat, product: nat)
    requires Val(low) + carry * Place(|low|) == Val(row) + product
    ensures Val(bottom + (low + [carry])) == Val(bottom + row) + Place(|bottom|) * product
  {
    ValSnoc(low, carry);
    ValConcat(bottom, low + [carry]);
    ValConcat(bottom, row);
    assert Val(low + [carry]) == Val(row) + product;
    MulDistrib(Place(|bottom|), Val(row), product);
  }

  method ZeroWords(x: array<Word>, n: nat)
    requires n <= x.Length
    modifies x
    ensures forall j :: 0 <= j < n ==> x[j] == 0
  {
    var i := 0;
    while i < n
      invariant 0 <= i <= n && forall j :: 0 <= j < i ==> x[j] == 0
    {
      x[i] := 0;
      i := i + 1;
    }
  }

  lemma {:induction false} RowValue(a: nat, words: seq<nat>, i: nat)
    requires i < |words|
    ensures a * Val(words[..i + 1]) == a * Val(words[..i]) + Place(i) * (a * words[i])
  {
    var p := Place(i);
    ValTake(words, i);
    MulDistrib(a, Val(words[..i]), words[i] * p);
    MulAssoc(a, words[i], p);
  }

  /** a * b, without leading zero words. */
  method Mult(a: Bigint, b: Bigint) returns (c: Bigint)
    requires a.Valid() && b.Valid()
    ensures fresh(c) && fresh(c.x) && c.Trimmed() && c.Value() == a.Value() * b.Value() && !c.sign
    ensures c.Value() > 0 ==> c.Normal()
  {
    var p, q := a, b;
    if a.wds < b.wds {
      p, q := b, a;
    }
    ghost var product := a.Value() * b.Value();
    assert p.Value() * q.Value() == product;
    var k := p.k;
    if p.wds + q.wds > p.x.Length {
      k := k + 1;
    }
    c := new Bigint(k);
    ZeroWords(c.x, p.wds + q.wds);
    MultRows(c, p, q);
    TrimWords(c, p.wds + q.wds);
  }

  /** Set the word count to n less the zero words at the top. */
  method TrimWords(c: Bigint, n: nat)
    requires c.Valid() && n <= c.x.Length
    modifies c`wds
    ensures c.Trimmed() && c.Value() == Val(c.x[..n])
    ensures c.Value() > 0 ==> c.Normal()
  {
    var wc := n;
    while wc > 0 && c.x[wc - 1] == 0
      invariant 0 <= wc <= n
      invariant forall j :: wc <= j < n ==> c.x[j] == 0
    {
      wc := wc - 1;
    }
    assert c.x[..n][..wc] == c.x[..wc];
    ValTrim(c.x[..n], wc);
    c.wds := wc;
  }

  /** Schoolbook multiplication into the zeroed words of c, skipping the rows of zero words. */
  method MultRows(c: Bigint, a: Bigint, b: Bigint)
    requires c.Valid() && a.Valid() && b.Valid() && b.wds <= a.wds && a.wds + b.wds <= c.x.Length
    requires c.x != a.x && c.x != b.x
    requires forall j :: 0 <= j < a.wds + b.wds ==> c.x[j] == 0
    modifies c.x
    ensures Val(c.x[..a.wds + b.wds]) == a.Value() * b.Value()
  {
    hide Pow;
    ghost var words: seq<nat> := b.x[..];
    var i, wa, wb := 0, a.wds, b.wds;
    ghost var av := a.Value();
    ValZeros(c.x[..wa]);
    while i < wb
      invariant 0 <= i <= wb
      invariant forall j :: i + wa <= j < wa + wb ==> c.x[j] == 0
      invariant Val(c.x[..i + wa]) == av * Val(words[..i])
    {
      var y := b.x[i];
      RowValue(av, words, i);
      ghost var rest := c.x[i + wa + 1..];
      if y != 0 {
        AddProduct(c.x, i, a.x, wa, y);
      } else {
        ValTrim(c.x[..i + wa + 1], i + wa);
        assert c.x[..i + wa + 1][..i + wa] == c.x[..i + wa];
      }
      assert forall j :: i + wa + 1 <= j < wa + wb ==> c.x[j] == rest[j - i - wa - 1];
      i := i + 1;
    }
  }

  /** The number of words added by a shift of k bits, plus room for a carry. */
  method ShiftClass(b: Bigint, room: nat) returns (k: nat)
    requires b.Valid()
    ensures b.k <= k && Pow(2, k) >= room && (k == b.k || Pow(2, k - 1) < room)
  {
    k := b.k;
    var i := b.x.Length;
    PowPos(2, k);
    while room > i
      invariant i == Pow(2, k) && i > 0 && k >= b.k && (k == b.k || Pow(2, k - 1) < room)
      decreases room - i
    {
      i := i * 2;
      k := k + 1;
    }
  }

  /**
   Shifting a word left by 0 < k < 32 bits, with m = 2^k and d = 2^(32-k): the
   bits carried in fill the vacated places, and the bits that fall out are the
   top of the word.
   */
  lemma {:induction false} ShiftWord(x: nat, m: nat, d: nat, z: nat)
    requires x < 0x1_0000_0000 && z < m && d > 0 && m * d == 0x1_0000_0000
    ensures Low(x * m) + z == Low(x * m + z)
    ensures x / d == High(x * m + z) < m <= 0x1_0000_0000
  {
    var q, r := x / d, x % d;
    assert x * m == q * 0x1_0000_0000 + r * m by {
      assert x == q * d + r;
      MulAssoc(q, d, m);
    }
    assert r * m + z < 0x1_0000_0000 by { MulMono(r, d - 1, m); }
    DivBound(x, d, m);
    DivUnique(x * m, 0x1_0000_0000, q, r * m);
    DivUnique(x * m + z, 0x1_0000_0000, q, r * m + z);
    MulMono(1, d, m);
  }

  /** Shift n words left by k bits into y, from position at on, with m = 2^k and d = 2^(32-k); the bits carried out are returned. */
  method ShiftWords(x: array<Word>, n: nat, y: array<Word>, at: nat, m: nat, d: nat) returns (z: Word)
    requires x != y && n <= x.Length && at + n <= y.Length && m > 0 && d > 0 && m * d == 0x1_0000_0000
    modifies y
    ensures y[..at] == old(y[..at])
    ensures Val(y[at..at + n]) + z * Place(n) == Val(x[..n]) * m
  {
    ghost var words: seq<nat> := x[..n];
    z := 0;
    ghost var low: seq<nat> := [];
    var i := 0;
    while i < n
      invariant 0 <= i <= n && |low| == i && z < m
      invariant y[..at] == old(y[..at]) && y[at..at + i] == low
      invariant Val(low) + z * Place(i) == Val(words[..i]) * m
    {
      var w := x[i];
      ShiftWord(w, m, d, z);
      ScaledWord(low, words, i, m, 0, z);
      y[at + i] := Low(w * m) + z;
      low := low + [Low(w * m + z)];
      z := w / d;
      i := i + 1;
    }
    assert words[..n] == words;
  }

  lemma {:induction false} ShiftedValue(zeros: seq<nat>, low: seq<nat>, v: nat, n: nat, r: nat)
    requires |zeros| == n && (forall i :: 0 <= i < n ==> zeros[i] == 0)
    requires Val(low) == v * Pow(2, r)
    ensures Val(zeros + low) == v * Pow(2, 32 * n + r)
  {
    ValZeros(zeros);
    ValConcat(zeros, low);
    PlacePow(n);
    PowAdd(2, 32 * n, r);
    MulAssoc(Place(n), v, Pow(2, r));
    MulAssoc(v, Place(n), Pow(2, r));
  }

  lemma {:induction false} PlacePow(n: nat)
    ensures Place(n) == Pow(2, 32 * n)
  {
    if n > 0 {
      PlacePow(n - 1);
      Pow32();
      PowAdd(2, 32, 32 * (n - 1));
    }
  }

  /** b * 2^k. */
  method ShiftLeft(b: Bigint, k: nat) returns (r: Bigint)
    requires b.Normal()
    ensures fresh(r) && fresh(r.x) && r.Valid() && r.Value() == b.Value() * Pow(2, k) && !r.sign
    ensures b.Value() > 0 ==> r.Normal()
  {
    var n, bits, w := k / 32, k % 32, b.wds;
    var size := ShiftClass(b, n + w + 1);
    r := new Bigint(size);
    ZeroWords(r.x, n);
    if bits != 0 {
      ShiftBits(b, r, n, bits);
    } else {
      ShiftWhole(b, r, n);
    }
    assert k == 32 * n + bits;
  }

  /** The case of a shift by 32 * n, above n zero words. */
  method ShiftWhole(b: Bigint, r: Bigint, n: nat)
    requires b.Normal() && r.Valid() && n + b.wds < r.x.Length && b != r && b.x != r.x
    requires forall i :: 0 <= i < n ==> r.x[i] == 0
    modifies r`wds, r.x
    ensures r.Valid() && r.Value() == b.Value() * Pow(2, 32 * n)
    ensures b.Value() > 0 ==> r.Normal()
  {
    var w := b.wds;
    ghost var zeros: seq<nat> := r.x[..n];
    MoveWords(b.x, w, r.x, n);
    r.wds := n + w;
    assert r.x[..n + w] == zeros + b.x[..w];
    ShiftedValue(zeros, b.x[..w], b.Value(), n, 0);
    assert r.x[n + w - 1] == r.x[..n + w][n + w - 1] == b.x[w - 1];
  }

  /** The case of a shift by 32 * n + bits, above n zero words. */
  method ShiftBits(b: Bigint, r: Bigint, n: nat, bits: nat)
    requires b.Normal() && r.Valid() && n + b.wds < r.x.Length && 0 < bits < 32 && b != r && b.x != r.x
    requires forall i :: 0 <= i < n ==> r.x[i] == 0
    modifies r`wds, r.x
    ensures r.Valid() && r.Value() == b.Value() * Pow(2, 32 * n + bits)
    ensures b.Value() > 0 ==> r.Normal()
  {
    hide Pow;
    var w := b.wds;
    ghost var zeros: seq<nat> := r.x[..n];
    var m, d := Pow(2, bits), Pow(2, 32 - bits);
    PowersOfTwo(bits);
    var z := ShiftWords(b.x, w, r.x, n, m, d);
    ghost var low: seq<nat> := r.x[n..n + w];
    r.x[n + w] := z;
    ShiftedTop(b.x[..w], low, z, m);
    ShiftedWords(zeros, low, z, b.Value(), n, bits);
    if z != 0 {
      r.wds := n + w + 1;
      assert r.x[..n + w + 1] == zeros + (low + [z]);
    } else {
      r.wds := n + w;
      assert r.x[..n + w] == zeros + low;
    }
  }

  lemma {:induction false} ShiftedWords(zeros: seq<nat>, low: seq<nat>, z: nat, v: nat, n: nat, bits: nat)
    requires |zeros| == n && (forall i :: 0 <= i < n ==> zeros[i] == 0)
    requires Val(low) + z * Place(|low|) == v * Pow(2, bits)
    ensures Val(zeros + (low + [z])) == v * Pow(2, 32 * n + bits)
    ensures z == 0 ==> Val(zeros + low) == v * Pow(2, 32 * n + bits)
  {
    ValSnoc(low, z);
    ShiftedValue(zeros, low + [z], v, n, bits);
    if z == 0 {
      ShiftedValue(zeros, low, v, n, bits);
    }
  }

  lemma {:induction false} PowersOfTwo(bits: nat)
    requires bits <= 32
    ensures Pow(2, bits) > 0 && Pow(2, 32 - bits) > 0 && Pow(2, bits) * Pow(2, 32 - bits) == 0x1_0000_0000
  {
    PowAdd(2, bits, 32 - bits);
    Pow32();
    PowPos(2, bits);
    PowPos(2, 32 - bits);
  }

  lemma {:induction false} ShiftedTop(before: seq<nat>, low: seq<nat>, z: nat, m: nat)
    requires |before| == |low| > 0 && AreWords(low) && m > 0 && Val(low) + z * Place(|low|) == Val(before) * m
    requires before[|before| - 1] != 0 || (|before| == 1 && Val(before) == 0)
    ensures Val(before) > 0 && z == 0 ==> low[|low| - 1] != 0
  {
    if Val(before) > 0 && z == 0 {
      ValTop(before);
      Grows(Val(before), m, 0);
      TopNonzero(low);
    }
  }

  /** Copy the words of x to y, from position at on. */
  method MoveWords(x: array<Word>, n: nat, y: array<Word>, at: nat)
    requires x != y && n <= x.Length && at + n <= y.Length
    modifies y
    ensures y[..at] == old(y[..at]) && y[at..at + n] == x[..n]
  {
    var i := 0;
    while i < n
      invariant 0 <= i <= n && y[..at] == old(y[..at]) && y[at..at + i] == x[..i]
    {
      y[at + i] := x[i];
      i := i + 1;
    }
  }
}
