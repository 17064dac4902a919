/**
 Multiplication by powers of five, through a list of cached powers that grows on
 demand and is shared by all calls.
 */
module PowersOfFive {
  import opened Words
  import opened Bigints

  /** The i-th cached power, 5^(4 * 2^i). */
  ghost function CachedPower(i: nat): nat {
    Pow(5, 4 * Pow(2, i))
  }

  lemma {:induction false} CachedSquare(i: nat)
    ensures CachedPower(i + 1) == CachedPower(i) * CachedPower(i)
  {
    var e := 4 * Pow(2, i);
    assert 4 * Pow(2, i + 1) == e + e;
    PowAdd(5, e, e);
  }

  lemma {:induction false} CachedPositive(i: nat)
    ensures CachedPower(i) > 0
  {
    PowPos(5, 4 * Pow(2, i));
  }

  /** Take one binary digit off the exponent k, whose place is i. */
  lemma {:induction false} LadderStep(v: nat, i: nat, k: nat)
    ensures v * Pow(CachedPower(i), k)
         == (if k % 2 == 1 then v * CachedPower(i) else v) * Pow(CachedPower(i + 1), k / 2)
  {
    var c, h := CachedPower(i), k / 2;
    CachedSquare(i);
    PowProduct(c, c, h);
    PowAdd(c, h, h);
    assert Pow(CachedPower(i + 1), h) == Pow(c, h + h);
    if k % 2 == 1 {
      assert k == h + h + 1;
      MulAssoc(v, c, Pow(c, h + h));
    } else {
      assert k == h + h;
    }
  }

  lemma {:induction false} LastStep(v: nat, i: nat)
    ensures Pow(CachedPower(i), 0) == 1 && v * Pow(CachedPower(i), 0) == v
  {
  }

  /** 5^k from the two low bits of k and the rest. */
  lemma {:induction false} SplitExponent(v: nat, k: nat)
    ensures v * Pow(5, k) == v * Pow(5, k % 4) * Pow(CachedPower(0), k / 4)
    ensures k % 4 == 0 ==> v * Pow(5, k % 4) == v
    ensures k / 4 == 0 ==> v * Pow(5, k % 4) == v * Pow(5, k)
  {
    assert Pow(2, 0) == 1 && CachedPower(0) == Pow(5, 4);
    PowMul(5, 4, k / 4);
    PowAdd(5, k % 4, 4 * (k / 4));
    MulAssoc(v, Pow(5, k % 4), Pow(5, 4 * (k / 4)));
  }

  class Cache {
    var chain: seq<Bigint>
    ghost var repr: set<object>

    ghost predicate Valid()
      reads this, repr
    {
      forall i :: 0 <= i < |chain| ==>
        chain[i] in repr && chain[i].x in repr && chain[i].Normal() && chain[i].Value() == CachedPower(i)
    }

    /** b is not in the cache and shares no words with it. */
    ghost predicate Apart(b: Bigint)
      reads this
    {
      b !in repr && b.x !in repr
    }

    constructor ()
      ensures Valid() && chain == [] && repr == {}
    {
      chain, repr := [], {};
    }

    /** b * 5^k, in place if need be; the cache keeps what it holds and may grow. */
    method PowMult(b: Bigint, k: nat) returns (r: Bigint)
      requires Valid() && Apart(b) && b.Normal() && b.Value() > 0
      modifies this, b, b.x
      ensures Valid() && old(chain) <= chain
      ensures old(repr) <= repr && fresh(repr - old(repr))
      ensures r.Normal() && r.Value() == old(b.Value()) * Pow(5, k) && r.Value() > 0
      ensures SameOrNew(b, r) && Apart(r)
    {
      ghost var v := b.Value();
      r := b;
      if k % 4 != 0 {
        r := LowPower(b, k % 4);
      }
      if k / 4 != 0 {
        Start();
        r := Ladder(r, k / 4);
      }
      SplitExponent(v, k);
    }

    /** Put the first power in an empty cache. */
    method Start()
      requires Valid()
      modifies this
      ensures Valid() && old(chain) <= chain && chain != []
      ensures old(repr) <= repr && fresh(repr - old(repr))
    {
      if chain == [] {
        var first := FirstPower();
        chain, repr := [first], repr + {first, first.x};
      }
    }

    /** The two low bits of the exponent. */
    method LowPower(b: Bigint, i: nat) returns (r: Bigint)
      requires Valid() && Apart(b) && b.Normal() && b.Value() > 0 && 1 <= i <= 3
      modifies b, b.x
      ensures Valid() && Apart(r) && r.Normal() && r.Value() == old(b.Value()) * Pow(5, i) && r.Value() > 0
      ensures SameOrNew(b, r)
    {
      var p: Word := if i == 1 then 5 else if i == 2 then 25 else 125;
      assert Pow(5, 1) == 5 && Pow(5, 2) == 25 && Pow(5, 3) == 125;
      r := MultAdd(b, p, 0);
    }

    /** `i2b(625)`. */
    method FirstPower() returns (p: Bigint)
      ensures fresh(p) && fresh(p.x) && p.Normal() && p.Value() == CachedPower(0)
    {
      p := Small(625);
      assert Pow(2, 0) == 1 && CachedPower(0) == Pow(5, 4);
      assert Pow(5, 4) == 625;
    }

    /** Have a power after the i-th: the square of the i-th, if the list ends there. */
    method Extend(i: nat)
      requires Valid() && i < |chain|
      modifies this
      ensures Valid() && i + 1 < |chain| && old(chain) <= chain
      ensures old(repr) <= repr && fresh(repr - old(repr))
    {
      if i + 1 == |chain| {
        CachedPositive(i);
        CachedSquare(i);
        var p := Times(chain[i], chain[i]);
        chain, repr := chain + [p], repr + {p, p.x};
      }
    }

    /** Multiply by the i-th power if the last bit of k is set. */
    method Rung(b: Bigint, i: nat, k: nat) returns (r: Bigint)
      requires Valid() && i < |chain| && Apart(b) && b.Normal() && b.Value() > 0
      ensures Apart(r) && r.Normal() && r.Value() > 0
      ensures r.Value() * Pow(CachedPower(i + 1), k / 2) == b.Value() * Pow(CachedPower(i), k)
      ensures SameOrNew(b, r)
    {
      r := b;
      LadderStep(b.Value(), i, k);
      if k % 2 == 1 {
        CachedPositive(i);
        r := Times(b, chain[i]);
      }
    }

    /** The binary ladder over the cached powers, squaring the last one when the list ends. */
    method Ladder(b: Bigint, e: nat) returns (r: Bigint)
      requires Valid() && Apart(b) && b.Normal() && b.Value() > 0 && e > 0 && chain != []
      modifies this
      ensures Valid() && old(chain) <= chain
      ensures old(repr) <= repr && fresh(repr - old(repr))
      ensures r.Normal() && r.Value() == old(b.Value()) * Pow(CachedPower(0), e) && r.Value() > 0
      ensures SameOrNew(b, r)
      ensures Apart(r)
    {
      hide Pow, CachedPower;
      ghost var goal := b.Value() * Pow(CachedPower(0), e);
      r := b;
      ghost var v := r.Value();
      var k, i := e, 0;
      while true
        invariant Valid() && old(chain) <= chain && i < |chain|
        invariant old(repr) <= repr && fresh(repr - old(repr))
        invariant r.Normal() && r.Value() == v > 0 && SameOrNew(b, r)
        invariant Apart(r) && k > 0
        invariant v * Pow(CachedPower(i), k) == goal
        decreases k
      {
        r := Rung(r, i, k);
        v := r.Value();
        k := k / 2;
        if k == 0 {
          LastStep(v, i + 1);
          return;
        }
        Extend(i);
        i := i + 1;
      }
    }
  }

  /** The product of positive numbers. */
  method Times(a: Bigint, b: Bigint) returns (c: Bigint)
    requires a.Normal() && b.Normal() && a.Value() > 0 && b.Value() > 0
    ensures fresh(c) && fresh(c.x) && c.Normal() && c.Value() == a.Value() * b.Value() && c.Value() > 0
  {
    c := Mult(a, b);
    MulStrict(0, a.Value(), b.Value());
  }
}
