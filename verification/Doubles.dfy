/**
 Positive finite IEEE 754 doubles as two words, and their conversion to an odd
 big number times a power of two.
 */
module Doubles {
  import opened Words
  import opened Bigints
  import opened Division

  /** The exponent field of the high word; the sign bit is ignored. */
  function ExponentField(w0: Word): (r: nat)
    ensures r < 0x800
  {
    w0 / 0x10_0000 % 0x800
  }

  /** The 53-bit significand; denormalised numbers lack the hidden bit. */
  function Significand(w0: Word, w1: Word): (f: nat)
    ensures f < 0x20_0000_0000_0000
    ensures ExponentField(w0) > 0 ==> f >= 0x10_0000_0000_0000
    ensures ExponentField(w0) == 0 ==> f < 0x10_0000_0000_0000
  {
    (w0 % 0x10_0000 + if ExponentField(w0) > 0 then 0x10_0000 else 0) * 0x1_0000_0000 + w1
  }

  /** The exponent of the last bit of the significand. */
  function Exponent(w0: Word): (e: int)
    ensures -1074 <= e
  {
    (if ExponentField(w0) > 0 then ExponentField(w0) else 1) - 1075
  }

  // ---- lo0bits ----

  /** Shift out the trailing zero bits of a word. */
  method TrailingZeros(w: Word) returns (k: nat, y: Word)
    requires w > 0
    ensures k < 32 && y % 2 == 1 && w == y * Pow(2, k)
  {
    if w % 8 != 0 {
      k, y := FewZeros(w);
      return;
    }
    k, y := DropHalf(w);
    k, y := DropByte(w, k, y);
    k, y := DropNibble(w, k, y);
    k, y := DropPair(w, k, y);
    k, y := DropBit(w, k, y);
  }

  method FewZeros(w: Word) returns (k: nat, y: Word)
    requires w % 8 != 0
    ensures k < 3 && y % 2 == 1 && w == y * Pow(2, k)
  {
    assert Pow(2, 0) == 1 && Pow(2, 1) == 2 && Pow(2, 2) == 4;
    if w % 2 != 0 {
      return 0, w;
    }
    if w % 4 != 0 {
      return 1, w / 2;
    }
    return 2, w / 4;
  }

  method DropHalf(w: Word) returns (k: nat, y: Word)
    requires w > 0
    ensures w == y * Pow(2, k) && y % 0x1_0000 != 0 && k <= 16
  {
    k, y := 0, w;
    assert Pow(2, 0) == 1;
    if y % 0x1_0000 == 0 {
      SmallPowers();
      DropBits(w, y, k, 16, 0x1_0000);
      k := 16;
      y := y / 0x1_0000;
    }
  }

  method DropBit(ghost w: nat, k0: nat, y0: Word) returns (k: nat, y: Word)
    requires w == y0 * Pow(2, k0) && y0 % 4 != 0
    ensures w == y * Pow(2, k) && y % 2 == 1 && k <= k0 + 1
  {
    k, y := k0, y0;
    if y % 2 == 0 {
      assert Pow(2, 1) == 2;
      DropBits(w, y, k, 1, 2);
      k := k + 1;
      y := y / 2;
    }
  }

  method DropByte(ghost w: nat, k0: nat, y0: Word) returns (k: nat, y: Word)
    requires w == y0 * Pow(2, k0) && y0 % 0x1_0000 != 0
    ensures w == y * Pow(2, k) && y % 0x100 != 0 && k <= k0 + 8
  {
    k, y := k0, y0;
    if y % 0x100 == 0 {
      SmallPowers();
      DropBits(w, y, k, 8, 0x100);
      k := k + 8;
      y := y / 0x100;
    }
  }

  method DropNibble(ghost w: nat, k0: nat, y0: Word) returns (k: nat, y: Word)
    requires w == y0 * Pow(2, k0) && y0 % 0x100 != 0
    ensures w == y * Pow(2, k) && y % 0x10 != 0 && k <= k0 + 4
  {
    k, y := k0, y0;
    if y % 0x10 == 0 {
      SmallPowers();
      DropBits(w, y, k, 4, 0x10);
      k := k + 4;
      y := y / 0x10;
    }
  }

  method DropPair(ghost w: nat, k0: nat, y0: Word) returns (k: nat, y: Word)
    requires w == y0 * Pow(2, k0) && y0 % 0x10 != 0
    ensures w == y * Pow(2, k) && y % 4 != 0 && k <= k0 + 2
  {
    k, y := k0, y0;
    if y % 4 == 0 {
      SmallPowers();
      DropBits(w, y, k, 2, 4);
      k := k + 2;
      y := y / 4;
    }
  }

  lemma {:induction false} DropBits(w: nat, y: nat, k: nat, bits: nat, m: nat)
    requires w == y * Pow(2, k) && m == Pow(2, bits) && m > 0 && y % m == 0
    ensures w == (y / m) * Pow(2, k + bits)
  {
    PowAdd(2, k, bits);
    var q, p := y / m, Pow(2, k);
    assert y == q * m;
    MulAssoc(q, m, p);
    assert m * p == p * m;
  }

  // ---- d2b ----

  /** The low word of a shifted pair of words: k bits of z come down above the rest of y. */
  lemma {:induction false} ShiftPair(y: nat, z: nat, m: nat, d: nat)
    requires m > 0 && d > 0 && m * d == 0x1_0000_0000 && y < d
    ensures y + Low(z * d) < 0x1_0000_0000
    ensures (y + Low(z * d) + 0x1_0000_0000 * (z / m)) * m == y * m + z * 0x1_0000_0000
  {
    var q, r := z / m, z % m;
    assert z == q * m + r;
    assert z * d == q * 0x1_0000_0000 + r * d by {
      MulAssoc(q, m, d);
      MulDistrib(d, q * m, r);
    }
    assert r * d + y < 0x1_0000_0000 by {
      MulMono(r, m - 1, d);
      MulDistrib(d, m, -1);
    }
    DivUnique(z * d, 0x1_0000_0000, q, r * d);
    assert (y + r * d) * m == y * m + r * 0x1_0000_0000 by {
      MulDistrib(m, y, r * d);
      MulAssoc(r, d, m);
    }
    assert (0x1_0000_0000 * q) * m == 0x1_0000_0000 * (q * m) by { MulAssoc(0x1_0000_0000, q, m); }
    MulDistrib(m, y + r * d, 0x1_0000_0000 * q);
  }

  lemma {:induction false} OddBound(y: nat, m: nat, d: nat)
    requires m > 0 && m * d == 0x1_0000_0000 && y * m < 0x1_0000_0000
    ensures y < d
  {
  }

  lemma {:induction false} PairValue(b: Bigint, x0: nat, x1: nat)
    requires b.Valid() && b.x.Length == 2 && b.x[0] == x0 && b.x[1] == x1 && b.wds == if x1 != 0 then 2 else 1
    ensures b.Normal() && b.Value() == x0 + 0x1_0000_0000 * x1
  {
    var w := b.x[..b.wds];
    ValOne(w[..1]);
    if b.wds == 2 {
      ValTake(w, 1);
      assert w[..2] == w && Place(1) == 0x1_0000_0000;
    } else {
      assert w[..1] == w;
    }
  }

  /** b has bits binary digits. */
  ghost predicate BitLength(v: nat, bits: nat) {
    bits > 0 && Pow(2, bits - 1) <= v < Pow(2, bits)
  }

  /** Dividing by 2^k takes k bits off. */
  lemma {:induction false} BitLengthShift(v: nat, k: nat, bits: nat)
    requires k < bits && BitLength(v * Pow(2, k), bits)
    ensures BitLength(v, bits - k)
  {
    PowAdd(2, bits - k, k);
    PowAdd(2, bits - k - 1, k);
    PowPos(2, k);
    MulCancel(Pow(2, bits - k - 1), v, Pow(2, k));
    MulCancel(v, Pow(2, bits - k), Pow(2, k));
  }

  lemma {:induction false} LowEven(z: nat, d: nat)
    requires d % 2 == 0
    ensures Low(z * d) % 2 == 0
  {
    var h := d / 2;
    assert z * d == 2 * (z * h) by { MulAssoc(z, 2, h); }
    var w := z * h;
    assert (2 * w) % 0x1_0000_0000 % 2 == 0;
  }

  lemma {:induction false} HalfOfWord(k: nat)
    requires k < 32
    ensures Pow(2, 32 - k) % 2 == 0
  {
  }

  /** The two words, shifted down by the trailing zeros of the lower one. */
  method LowWord(y0: Word, z0: Word) returns (k: nat, x0: Word, x1: Word)
    requires y0 > 0
    ensures k < 32 && x0 % 2 == 1
    ensures (x0 + 0x1_0000_0000 * x1) * Pow(2, k) == z0 * 0x1_0000_0000 + y0
  {
    var y;
    k, y := TrailingZeros(y0);
    PowPos(2, k);
    x0, x1 := ShiftDown(y, z0, k, Pow(2, k), Pow(2, 32 - k));
  }

  method ShiftDown(y: Word, z: Word, k: nat, m: nat, d: nat) returns (x0: Word, x1: Word)
    requires k < 32 && m == Pow(2, k) > 0 && d == Pow(2, 32 - k) && y * m < 0x1_0000_0000 && y % 2 == 1
    ensures x0 % 2 == 1
    ensures (x0 + 0x1_0000_0000 * x1) * m == y * m + z * 0x1_0000_0000
  {
    hide Pow;
    var l, q := Low(z * d), z / m;
    LowWordEven(z, k, d, l);
    LowWordValue(y, z, k, m, d, l, q);
    OddSum(y, l);
    x0, x1 := y + l, q;
  }

  lemma {:induction false} OddSum(y: nat, l: nat)
    requires y % 2 == 1 && l % 2 == 0
    ensures (y + l) % 2 == 1
  {
  }

  lemma {:induction false} LowWordEven(z: nat, k: nat, d: nat, l: nat)
    requires k < 32 && d == Pow(2, 32 - k) && l == Low(z * d)
    ensures l % 2 == 0
  {
    HalfOfWord(k);
    LowEven(z, d);
  }

  lemma {:induction false} LowWordValue(y: nat, z: nat, k: nat, m: nat, d: nat, l: nat, q: nat)
    requires k < 32 && m == Pow(2, k) && d == Pow(2, 32 - k) && y * m < 0x1_0000_0000
    requires m > 0 && l == Low(z * d) && q == z / m
    ensures q <= z && y + l < 0x1_0000_0000
    ensures (y + l + 0x1_0000_0000 * q) * m == y * m + z * 0x1_0000_0000
  {
    PowersOfTwo(k);
    OddBound(y, m, d);
    QuotientBound(z, m);
    ShiftPair(y, z, m, d);
  }

  lemma {:induction false} QuotientBound(z: nat, m: nat)
    requires m > 0
    ensures z / m <= z
  {
    MulMono(1, m, z / m);
  }

  /** The words of an odd number, after the trailing zeros of both words are shifted out. */
  method OddWords(z0: Word, y0: Word) returns (b: Bigint, k: nat)
    requires y0 > 0 || z0 > 0
    ensures fresh(b) && fresh(b.x) && b.Normal() && b.Value() % 2 == 1 && k < 64
    ensures b.Value() * Pow(2, k) == z0 * 0x1_0000_0000 + y0
  {
    b := new Bigint(1);
    assert b.x.Length == 2;
    if y0 != 0 {
      var x0, x1;
      k, x0, x1 := LowWord(y0, z0);
      b.x[0] := x0;
      b.x[1] := x1;
      b.wds := if x1 != 0 then 2 else 1;
      PairValue(b, x0, x1);
    } else {
      k := HighWord(b, z0);
    }
  }

  /** The case of a zero low word. */
  method HighWord(b: Bigint, z0: Word) returns (k: nat)
    requires b.Valid() && b.x.Length == 2 && z0 > 0
    modifies b`wds, b.x
    ensures b.Normal() && b.Value() % 2 == 1 && k < 64 && b.Value() * Pow(2, k) == z0 * 0x1_0000_0000
  {
    var j, z := TrailingZeros(z0);
    b.x[0] := z;
    b.wds := 1;
    ValOne(b.x[..1]);
    PowAdd(2, j, 32);
    Pow32();
    MulAssoc(z, Pow(2, j), 0x1_0000_0000);
    k := j + 32;
  }

  /** The double is an odd number b times 2^e; bits is the number of binary digits of b. */
  method D2b(w0: Word, w1: Word) returns (b: Bigint, e: int, bits: nat)
    requires Significand(w0, w1) > 0
    ensures fresh(b) && fresh(b.x) && b.Normal() && b.Value() % 2 == 1 && e >= Exponent(w0)
    ensures b.Value() * Pow(2, e - Exponent(w0)) == Significand(w0, w1)
    ensures BitLength(b.Value(), bits)
    ensures ExponentField(w0) > 0 ==> bits == 53 - (e - Exponent(w0))
  {
    var z: Word := w0 % 0x10_0000;
    var de := w0 % 0x8000_0000 / 0x10_0000;
    assert de == ExponentField(w0);
    if de != 0 {
      z := z + 0x10_0000;
    }
    var k;
    b, k := OddWords(z, w1);
    e := Exponent(w0) + k;
    if de != 0 {
      FullLength(b.Value(), k);
      bits := 53 - k;
    } else {
      bits := LengthOf(b);
    }
  }

  lemma {:induction false} FullLength(v: nat, k: nat)
    requires 0x10_0000_0000_0000 <= v * Pow(2, k) < 0x20_0000_0000_0000
    ensures k < 53 && BitLength(v, 53 - k)
  {
    SmallPowers();
    PowAdd(2, 32, 20);
    PowAdd(2, 52, 1);
    assert Pow(2, 52) == 0x10_0000_0000_0000 && Pow(2, 53) == 0x20_0000_0000_0000;
    if k >= 53 {
      PowMono(2, 53, k);
      if v > 0 {
        MulMono(1, v, Pow(2, k));
      }
    } else {
      BitLengthShift(v, k, 53);
    }
  }

  /** The number of binary digits, from the top word. */
  method LengthOf(b: Bigint) returns (bits: nat)
    requires b.Normal() && b.Value() > 0
    ensures BitLength(b.Value(), bits) && bits <= 32 * b.wds && bits + 32 > 32 * b.wds
  {
    var n := b.wds - 1;
    var top := b.x[n];
    var zeros := LeadingZeros(top);
    ghost var words: seq<nat> := b.x[..b.wds];
    if n == 0 {
      ValOne(words);
    }
    TopBounds(words);
    TopLength(b.Value(), top, zeros, n);
    bits := 32 * b.wds - zeros;
  }

  lemma {:induction false} TopLength(v: nat, top: nat, zeros: nat, n: nat)
    requires zeros < 32 && Pow(2, 31) <= top * Pow(2, zeros) < Pow(2, 32)
    requires top * Place(n) <= v < (top + 1) * Place(n)
    ensures BitLength(v, 32 * (n + 1) - zeros)
  {
    BitLengthShift(top, zeros, 32);
    var w := 32 - zeros;
    PlacePow(n);
    PowAdd(2, w, 32 * n);
    PowAdd(2, w - 1, 32 * n);
    MulMono(Pow(2, w - 1), top, Place(n));
    MulMono(top + 1, Pow(2, w), Place(n));
    assert w + 32 * n == 32 * (n + 1) - zeros;
  }
}
