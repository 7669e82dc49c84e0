/** The shift-or rotations of the source are the one-bit rotations of the model, repeated. */
module Rotations {
  import opened Words
  import opened Words64

  function Or(x: nat, y: nat): nat
    decreases x + y, x, y
  {
    if x == 0 && y == 0 then 0 else (if Odd(x) || Odd(y) then 1 else 0) + 2 * Or(x / 2, y / 2)
  }

  /** n one-bit turns to the right; top is the value of the highest bit. */
  function Turned(x: nat, n: nat, top: nat): nat
    decreases n, x, top
  {
    if n == 0 then x else Turned(x / 2 + x % 2 * top, n - 1, top)
  }

  // ----- high and low part -----

  lemma HalfOf(h: nat, l: nat, p: nat)
    ensures (l + h * (2 * p)) / 2 == l / 2 + h * p && (l + h * (2 * p)) % 2 == l % 2
  {
    assert h * (2 * p) == 2 * (h * p);
  }

  lemma Regroup(h: nat, l: nat, b: nat, p: nat, q: nat)
    ensures l + h * p + b * (p * q) == l + (h + b * q) * p
  {
    assert (h + b * q) * p == h * p + b * q * p;
    assert b * q * p == b * (p * q);
  }

  lemma Recombine(h: nat, l: nat, q: nat)
    ensures h + l % 2 * q + l / 2 * (2 * q) == h + l * q
  {
    var a, b := l / 2, l % 2;
    assert l * q == (2 * a + b) * q == a * (2 * q) + b * q;
  }

  lemma OneTurn(h: nat, l: nat, b: nat, r: nat, q: nat, top: nat, x: nat)
    requires x == l + h * (2 * r) && r * q == top && b == l % 2
    ensures x / 2 + x % 2 * top == l / 2 + (h + b * q) * r
  {
    HalfOf(h, l, r);
    Regroup(h, l / 2, b, r, q);
  }

  lemma HalfPower(p: nat, q: nat, r: nat, top: nat)
    requires p == 2 * r && p * q == 2 * top
    ensures r * q == top && r * (2 * q) == 2 * top
  {
    assert p * q == 2 * (r * q);
  }

  lemma BitBelow(h: nat, b: nat, q: nat)
    requires h < q && b <= 1
    ensures h + b * q < 2 * q
  {
    assert b == 0 || b == 1;
  }

  /** Turning a number made of h and the n low bits l puts l on top and h below. */
  lemma {:induction false} TurnedIsSum(h: nat, l: nat, n: nat, p: nat, q: nat, top: nat, x: nat)
    requires p == Pow2(n) && p * q == 2 * top && l < p && h < q && x == l + h * p
    ensures Turned(x, n, top) == h + l * q
    decreases n
  {
    if n > 0 {
      var r, b := Pow2(n - 1), l % 2;
      HalfPower(p, q, r, top);
      OneTurn(h, l, b, r, q, top, x);
      BitBelow(h, b, q);
      var y := x / 2 + x % 2 * top;
      TurnedIsSum(h + b * q, l / 2, n - 1, r, 2 * q, top, y);
      Recombine(h, l, q);
    }
  }

  lemma {:induction false} ShrIsHigh(h: nat, l: nat, n: nat, p: nat)
    requires p == Pow2(n) && l < p
    ensures Shr(l + h * p, n) == h
    decreases n
  {
    if n > 0 {
      HalfOf(h, l, Pow2(n - 1));
      ShrIsHigh(h, l / 2, n - 1, Pow2(n - 1));
    }
  }

  lemma {:induction false} OrOfZero(x: nat)
    ensures Or(0, x) == x
  {
    if x > 0 {
      OrOfZero(x / 2);
    }
  }

  lemma EvenShift(l: nat, q: nat)
    ensures l * (2 * q) / 2 == l * q && !Odd(l * (2 * q))
  {
    assert l * (2 * q) == 2 * (l * q);
  }

  /** Bits that do not overlap add up. */
  lemma {:induction false} OrIsSum(h: nat, l: nat, k: nat, q: nat)
    requires q == Pow2(k) && h < q
    ensures Or(h, l * q) == h + l * q
    decreases k
  {
    if k == 0 {
      OrOfZero(l);
    } else {
      var r := Pow2(k - 1);
      EvenShift(l, r);
      OrIsSum(h / 2, l, k - 1, r);
    }
  }

  lemma ShlIsLow(h: nat, l: nat, p: nat, q: nat, m: nat)
    requires m == p * q && l < p && q > 0
    ensures (l + h * p) * q % m == l * q
  {
    assert (l + h * p) * q == l * q + h * m by {
      assert h * p * q == h * (p * q);
    }
    assert l * q < p * q;
    DivisionIsUnique(l * q + h * m, m, h, l * q);
  }

  lemma Parts(x: nat, p: nat, q: nat, h: nat, l: nat)
    requires p > 0 && x < p * q && h == x / p && l == x % p
    ensures x == l + h * p && h < q
  {
    assert h >= q ==> h * p >= q * p;
  }

  /** n one-bit turns of a w-bit word are a shift right, a shift left, and an or. */
  lemma TurnIsShiftOr(x: nat, n: nat, w: nat, top: nat)
    requires 0 < n < w && x < Pow2(w) == 2 * top
    ensures Turned(x, n, top) == Or(Shr(x, n), x * Pow2(w - n) % Pow2(w))
  {
    var p, q := Pow2(n), Pow2(w - n);
    Pow2Adds(n, w - n);
    var h, l := x / p, x % p;
    Parts(x, p, q, h, l);
    SumIsShiftOr(x, n, w, top, h, l, p, q);
  }

  lemma SumIsShiftOr(x: nat, n: nat, w: nat, top: nat, h: nat, l: nat, p: nat, q: nat)
    requires 0 < n < w && Pow2(w) == 2 * top && p == Pow2(n) && q == Pow2(w - n) && p * q == Pow2(w)
    requires x == l + h * p && l < p && h < q
    ensures Turned(x, n, top) == Or(Shr(x, n), x * q % Pow2(w))
  {
    TurnedIsSum(h, l, n, p, q, top, x);
    ShrIsHigh(h, l, n, p);
    ShlIsLow(h, l, p, q, Pow2(w));
    OrIsSum(h, l, w - n, q);
  }

  // ----- the macros -----

  lemma {:induction false} RotRIsTurned(x: Word, n: nat)
    ensures RotR(x, n) == Turned(x, n, 0x8000_0000)
    decreases n
  {
    if n > 0 {
      RotRIsTurned(x / 2 + (x % 2) * 0x8000_0000, n - 1);
    }
  }

  /** ROTR32 */
  lemma RotRIsShiftOr(x: Word, n: nat)
    requires 0 < n < 32
    ensures RotR(x, n) == Or(Shr(x, n), x * Pow2(32 - n) % WORD)
  {
    Pow2Of32();
    RotRIsTurned(x, n);
    TurnIsShiftOr(x, n, 32, 0x8000_0000);
  }

  lemma {:induction false} RotRAdds(x: Word, m: nat, n: nat)
    ensures RotR(x, m + n) == RotR(RotR(x, m), n)
    decreases m
  {
    if m > 0 {
      RotRAdds(x / 2 + (x % 2) * 0x8000_0000, m - 1, n);
    }
  }

  /** A turn by the whole width changes nothing. */
  lemma FullTurn(x: Word)
    ensures RotR(x, 32) == x
  {
    Pow2Of32();
    RotRIsTurned(x, 32);
    TurnedIsSum(0, x, 32, WORD, 1, 0x8000_0000, x);
  }

  /** ROTL32 is a right rotation by the rest of the width, and so the same two shifts. */
  lemma RotLIsShiftOr(x: Word, n: nat)
    requires 0 < n < 32
    ensures RotL(x, n) == RotR(x, 32 - n) == Or(Shr(x, 32 - n), x * Pow2(n) % WORD)
  {
    var y := RotR(x, 32 - n);
    RotRAdds(x, 32 - n, n);
    FullTurn(x);
    RotationsCancel(y, n);
    RotRIsShiftOr(x, 32 - n);
  }

  lemma {:induction false} Ror64IsTurned(x: Word64, n: nat)
    ensures Ror64(x, n) == Turned(x, n, 0x8000_0000_0000_0000)
    decreases n
  {
    if n > 0 {
      Ror64IsTurned(x / 2 + x % 2 * 0x8000_0000_0000_0000, n - 1);
    }
  }

  /** ref_ror64, with its own case for distance 0. */
  lemma Ror64IsShiftOr(x: Word64, n: nat)
    requires n < 64
    ensures Ror64(x, n) == if n == 0 then x else Or(Shr(x, n), x * Pow2(64 - n) % WORD64)
  {
    if n > 0 {
      Pow2Of64();
      Ror64IsTurned(x, n);
      TurnIsShiftOr(x, n, 64, 0x8000_0000_0000_0000);
    }
  }
}
