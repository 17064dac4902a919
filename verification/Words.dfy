/**
 Numbers as little-endian sequences of 32-bit words.
 */
module Words {
  type Word = w: nat | w < 0x1_0000_0000

  function Pow(b: nat, n: nat): nat {
    if n == 0 then 1 else b * Pow(b, n - 1)
  }

  lemma {:induction false} PowPos(b: nat, n: nat)
    requires b > 0
    ensures Pow(b, n) > 0
    decreases n
  {
    if n > 0 {
      PowPos(b, n - 1);
    }
  }

  lemma {:induction false} PowAdd(b: nat, m: nat, n: nat)
    ensures Pow(b, m + n) == Pow(b, m) * Pow(b, n)
    decreases m
  {
    if m > 0 {
      PowAdd(b, m - 1, n);
      MulAssoc(b, Pow(b, m - 1), Pow(b, n));
    }
  }

  lemma {:induction false} PowMul(b: nat, m: nat, n: nat)
    ensures Pow(Pow(b, m), n) == Pow(b, m * n)
    decreases n
  {
    if n > 0 {
      PowMul(b, m, n - 1);
      PowAdd(b, m, m * (n - 1));
      assert m + m * (n - 1) == m * n by { MulDistrib(m, 1, n - 1); }
    }
  }

  lemma {:induction false} PowProduct(a: nat, b: nat, n: nat)
    ensures Pow(a * b, n) == Pow(a, n) * Pow(b, n)
    decreases n
  {
    if n > 0 {
      PowProduct(a, b, n - 1);
      var x, y := Pow(a, n - 1), Pow(b, n - 1);
      MulAssoc(a, b, x * y);
      MulAssoc(b, x, y);
      MulAssoc(x, b, y);
      MulAssoc(a, x, b * y);
    }
  }

  lemma {:induction false} PowMono(b: nat, m: nat, n: nat)
    requires b >= 1 && m <= n
    ensures Pow(b, m) <= Pow(b, n)
    decreases n - m
  {
    if m < n {
      PowMono(b, m + 1, n);
      MulMono(1, b, Pow(b, m));
    }
  }

  lemma {:induction false} MulAssoc(a: int, b: int, c: int)
    ensures a * (b * c) == (a * b) * c
  {
  }

  lemma {:induction false} MulSwap(a: int, b: int, c: int)
    ensures a * b * c == a * c * b
  {
  }

  lemma {:induction false} MulDistrib(a: int, b: int, c: int)
    ensures a * (b + c) == a * b + a * c
  {
  }

  lemma {:induction false} MulMono(a: int, b: int, c: int)
    requires a <= b && c >= 0
    ensures a * c <= b * c
  {
  }

  lemma {:induction false} MulStrict(a: int, b: int, c: int)
    requires a < b && c > 0
    ensures a * c < b * c
  {
  }

  /** Cancelling a positive factor. */
  lemma {:induction false} MulCancel(a: int, b: int, c: int)
    requires c > 0
    ensures (a * c < b * c <==> a < b) && (a * c == b * c <==> a == b) && (a * c <= b * c <==> a <= b)
  {
  }

  lemma {:induction false} DivBound(y: nat, m: nat, n: nat)
    requires m > 0 && y < m * n
    ensures y / m < n
  {
  }

  /** Quotient and remainder are determined by their equation. */
  lemma {:induction false} DivUnique(a: nat, b: nat, q: nat, r: nat)
    requires b > 0 && a == q * b + r && r < b
    ensures a / b == q && a % b == r
  {
    var q', r' := a / b, a % b;
    assert a == q' * b + r';
    assert (q - q') * b == r' - r;
    if q < q' {
      MulMono(1, q' - q, b);
    } else if q > q' {
      MulMono(1, q - q', b);
    }
  }

  lemma {:induction false} Pow32()
    ensures Pow(2, 32) == 0x1_0000_0000
  {
    assert Pow(2, 8) == 256;
    PowAdd(2, 8, 8);
    PowAdd(2, 16, 16);
  }

  /** The two halves of a 64-bit intermediate result. */
  function Low(z: nat): (w: Word) {
    z % 0x1_0000_0000
  }

  function High(z: nat): nat {
    z / 0x1_0000_0000
  }

  /** The weight of the n-th word. */
  ghost function Place(n: nat): nat {
    if n == 0 then 1 else 0x1_0000_0000 * Place(n - 1)
  }

  lemma {:induction false} PlacePos(n: nat)
    ensures Place(n) > 0
  {
    if n > 0 {
      PlacePos(n - 1);
    }
  }

  lemma {:induction false} PlaceAdd(m: nat, n: nat)
    ensures Place(m + n) == Place(m) * Place(n)
  {
    if m > 0 {
      PlaceAdd(m - 1, n);
    }
  }

  /** The number that the words denote, least significant first. */
  ghost function Val(s: seq<nat>): nat {
    if |s| == 0 then 0 else s[0] + 0x1_0000_0000 * Val(s[1..])
  }

  lemma {:induction false} ValOne(s: seq<nat>)
    requires |s| == 1
    ensures Val(s) == s[0]
  {
  }

  ghost predicate AreWords(s: seq<nat>) {
    forall i :: 0 <= i < |s| ==> s[i] < 0x1_0000_0000
  }

  lemma {:induction false} ValConcat(a: seq<nat>, b: seq<nat>)
    ensures Val(a + b) == Val(a) + Place(|a|) * Val(b)
    decreases |a|
  {
    if |a| == 0 {
      assert a + b == b;
    } else {
      ValConcat(a[1..], b);
      assert (a + b)[1..] == a[1..] + b;
      MulAssoc(0x1_0000_0000, Place(|a| - 1), Val(b));
    }
  }

  lemma {:induction false} ValSnoc(s: seq<nat>, w: nat)
    ensures Val(s + [w]) == Val(s) + w * Place(|s|)
  {
    assert Val([w]) == w;
    ValConcat(s, [w]);
  }

  /** Taking one more word of a longer sequence. */
  lemma {:induction false} ValTake(s: seq<nat>, i: nat)
    requires i < |s|
    ensures Val(s[..i + 1]) == Val(s[..i]) + s[i] * Place(i)
  {
    assert s[..i + 1] == s[..i] + [s[i]];
    ValSnoc(s[..i], s[i]);
  }

  lemma {:induction false} ValBound(s: seq<nat>)
    requires AreWords(s)
    ensures Val(s) < Place(|s|)
    decreases |s|
  {
    if |s| > 0 {
      ValBound(s[1..]);
    }
  }

  /** A nonzero top word makes the number at least its weight. */
  lemma {:induction false} ValTop(s: seq<nat>)
    requires |s| > 0 && s[|s| - 1] > 0
    ensures Val(s) >= Place(|s| - 1)
    decreases |s|
  {
    if |s| > 1 {
      ValTop(s[1..]);
    }
  }

  lemma {:induction false} ValZeros(s: seq<nat>)
    requires forall i :: 0 <= i < |s| ==> s[i] == 0
    ensures Val(s) == 0
    decreases |s|
  {
    if |s| > 0 {
      ValZeros(s[1..]);
    }
  }

  /** Dropping zero words at the top. */
  lemma {:induction false} ValTrim(s: seq<nat>, n: nat)
    requires n <= |s| && forall i :: n <= i < |s| ==> s[i] == 0
    ensures Val(s[..n]) == Val(s)
  {
    assert s == s[..n] + s[n..];
    ValConcat(s[..n], s[n..]);
    ValZeros(s[n..]);
  }

  /** A number that needs all its words has a nonzero top word. */
  lemma {:induction false} TopNonzero(s: seq<nat>)
    requires |s| > 0 && AreWords(s) && Val(s) >= Place(|s| - 1)
    ensures s[|s| - 1] != 0
  {
    var n := |s| - 1;
    ValBound(s[..n]);
    assert s == s[..n] + [s[n]];
    ValSnoc(s[..n], s[n]);
  }
}
