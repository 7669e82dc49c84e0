/** Bitwise operations and shifts, said in terms of division and of single bits. */
module Bits {
  import opened Words
  import opened Words64
  import opened Rotations

  /** Bit k of x. */
  function Bit(x: nat, k: nat): nat {
    x / Pow2(k) % 2
  }

  lemma DivideTwice(x: nat, d: nat, p: nat)
    requires d > 0 && p > 0
    ensures x / d / p == x / (d * p)
  {
    var y, e := x / d, x % d;
    var q, r := y / p, y % p;
    Compose(x, d, p, y, e, q, r);
    DivisionIsUnique(x, d * p, q, r * d + e);
  }

  lemma Compose(x: nat, d: nat, p: nat, y: nat, e: nat, q: nat, r: nat)
    requires x == y * d + e && e < d && y == q * p + r && r < p
    ensures x == q * (d * p) + (r * d + e) && r * d + e < d * p
  {
    assert y * d == q * p * d + r * d;
    assert q * p * d == q * (d * p);
    assert (r + 1) * d <= p * d;
  }

  lemma {:induction false} ShrIsDivision(x: nat, n: nat)
    ensures Shr(x, n) == x / Pow2(n)
    decreases n
  {
    if n > 0 {
      ShrIsDivision(x / 2, n - 1);
      DivideTwice(x, 2, Pow2(n - 1));
    }
  }

  lemma BitDown(x: nat, k: nat)
    requires k > 0
    ensures Bit(x, k) == Bit(x / 2, k - 1)
  {
    DivideTwice(x, 2, Pow2(k - 1));
  }

  /** Bit k of a xor is set exactly when it is set in one of the two. */
  lemma {:induction false} XorBit(x: nat, y: nat, k: nat)
    ensures Bit(Xor(x, y), k) == if Bit(x, k) == Bit(y, k) then 0 else 1
    decreases k
  {
    XorHalves(x, y);
    if k == 0 {
      ZeroBits(x, y, Xor(x, y));
    } else {
      BitDown(x, k);
      BitDown(y, k);
      BitDown(Xor(x, y), k);
      XorBit(x / 2, y / 2, k - 1);
    }
  }

  lemma ZeroBits(x: nat, y: nat, z: nat)
    ensures Bit(x, 0) == x % 2 && Bit(y, 0) == y % 2 && Bit(z, 0) == z % 2
  {
  }

  lemma AndHalves(x: nat, y: nat)
    ensures And(x, y) / 2 == And(x / 2, y / 2) && (Odd(And(x, y)) <==> Odd(x) && Odd(y))
  {
  }

  lemma {:induction false} AndBit(x: nat, y: nat, k: nat)
    ensures Bit(And(x, y), k) == if Bit(x, k) == 1 && Bit(y, k) == 1 then 1 else 0
    decreases k
  {
    AndHalves(x, y);
    if k == 0 {
      ZeroBits(x, y, And(x, y));
    } else {
      BitDown(x, k);
      BitDown(y, k);
      BitDown(And(x, y), k);
      AndBit(x / 2, y / 2, k - 1);
    }
  }

  lemma OrHalves(x: nat, y: nat)
    ensures Or(x, y) / 2 == Or(x / 2, y / 2) && (Odd(Or(x, y)) <==> Odd(x) || Odd(y))
  {
  }

  lemma {:induction false} OrBit(x: nat, y: nat, k: nat)
    ensures Bit(Or(x, y), k) == if Bit(x, k) == 1 || Bit(y, k) == 1 then 1 else 0
    decreases k
  {
    OrHalves(x, y);
    if k == 0 {
      ZeroBits(x, y, Or(x, y));
    } else {
      BitDown(x, k);
      BitDown(y, k);
      BitDown(Or(x, y), k);
      OrBit(x / 2, y / 2, k - 1);
    }
  }

  lemma {:induction false} HasBit(x: nat)
    requires x > 0
    ensures exists k: nat :: Bit(x, k) == 1
  {
    if x % 2 == 1 {
      ZeroBits(x, x, x);
      assert Bit(x, 0) == 1;
    } else {
      HasBit(x / 2);
      var k: nat :| Bit(x / 2, k) == 1;
      BitDown(x, k + 1);
      assert Bit(x, k + 1) == 1;
    }
  }

  lemma ZeroHasNone(k: nat)
    ensures Bit(0, k) == 0
  {
  }

  /** Two numbers share a set bit exactly when their and is not zero. */
  lemma AndIsZero(x: nat, y: nat)
    ensures And(x, y) != 0 <==> exists k: nat :: Bit(x, k) == 1 && Bit(y, k) == 1
  {
    if And(x, y) != 0 {
      HasBit(And(x, y));
      var k: nat :| Bit(And(x, y), k) == 1;
      AndBit(x, y, k);
      assert Bit(x, k) == 1 && Bit(y, k) == 1;
    }
    if k: nat :| Bit(x, k) == 1 && Bit(y, k) == 1 {
      AndBit(x, y, k);
      ZeroHasNone(k);
    }
  }

  // ----- words -----

  lemma AddIsSum(x: Word, y: Word)
    ensures Add(x, y) == (x + y) % WORD
  {
  }

  lemma {:induction false} ShrWIsShr(x: Word, n: nat)
    ensures ShrW(x, n) == Shr(x, n)
    decreases n
  {
    if n > 0 {
      ShrWIsShr(x / 2, n - 1);
    }
  }

  lemma {:induction false} Shr64IsShr(x: Word64, n: nat)
    ensures Shr64(x, n) == Shr(x, n)
    decreases n
  {
    if n > 0 {
      Shr64IsShr(x / 2, n - 1);
    }
  }

  lemma ReduceFirst(x: nat, p: nat, m: nat, q: nat, r: nat)
    requires m > 0 && x == q * m + r
    ensures r * p % m == x * p % m
  {
    assert x * p == r * p + q * p * m;
    AddsMultiple(r * p, q * p, m);
  }

  lemma DoubleFirst(x: nat, p: nat, m: nat)
    requires m > 0
    ensures x * 2 % m * p % m == x * (2 * p) % m
  {
    var y := x * 2;
    ReduceFirst(y, p, m, y / m, y % m);
    assert y * p == x * (2 * p);
  }

  lemma AddsMultiple(a: nat, k: nat, m: nat)
    requires m > 0
    ensures (a + k * m) % m == a % m
  {
    var q, r := a / m, a % m;
    assert a + k * m == (q + k) * m + r;
    DivisionIsUnique(a + k * m, m, q + k, r);
  }

  lemma {:induction false} Shl64IsProduct(x: Word64, n: nat)
    ensures Shl64(x, n) == x * Pow2(n) % WORD64
    decreases n
  {
    if n > 0 {
      Shl64IsProduct(x * 2 % WORD64, n - 1);
      DoubleFirst(x, Pow2(n - 1), WORD64);
    }
  }
}
