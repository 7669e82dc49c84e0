/** 64-bit words, and the mixing functions built from them. */
module Words64 {
  import opened Words

  const WORD64: int := 0x1_0000_0000_0000_0000

  type Word64 = w: int | 0 <= w < WORD64

  function Add64(x: Word64, y: Word64): Word64 {
    (x + y) % WORD64
  }

  function Sub64(x: Word64, y: Word64): Word64 {
    (x - y) % WORD64
  }

  function Mul64(x: Word64, y: Word64): Word64 {
    (x as int * y as int) % WORD64
  }

  function Xor64(x: Word64, y: Word64): Word64 {
    Xor(x, y) % WORD64
  }

  function Shr64(x: Word64, n: nat): (r: Word64)
    ensures r <= x
    decreases n, x
  {
    if n == 0 then x else Shr64(x / 2, n - 1)
  }

  function Shl64(x: Word64, n: nat): Word64
    decreases n, x
  {
    if n == 0 then x else Shl64(x * 2 % WORD64, n - 1)
  }

  /** ref_ror64 */
  function Ror64(x: Word64, n: nat): Word64
    decreases n, x
  {
    if n == 0 then x else Ror64(x / 2 + x % 2 * 0x8000_0000_0000_0000, n - 1)
  }

  /** x ^ (x >> n) */
  function XorShift(x: Word64, n: nat): Word64 {
    Xor64(x, Shr64(x, n))
  }

  const GOLDEN: Word64 := 0x9e37_79b9_7f4a_7c15
  const MIX1: Word64 := 0xbf58_476d_1ce4_e5b9
  const MIX2: Word64 := 0x94d0_49bb_1331_11eb

  /** The finalizer splitmix64 and ref_mix64 share. */
  function Finalize(x: Word64): Word64 {
    XorShift(Mul64(XorShift(Mul64(XorShift(x, 30), MIX1), 27), MIX2), 31)
  }

  function Mix64(val: Word64, key: Word): Word64 {
    Finalize(Xor64(val, Mul64(key, GOLDEN)))
  }

  // ----- undoing the mix -----

  lemma Pow2Of64()
    ensures Pow2(64) == WORD64
  {
    Pow2Of32();
    Pow2Adds(32, 32);
  }

  lemma Xor64IsXor(x: Word64, y: Word64)
    ensures Xor64(x, y) == Xor(x, y)
  {
    Pow2Of64();
    XorBound(x, y, 64);
  }

  lemma {:induction false} ShrOfXor(x: Word64, y: Word64, n: nat)
    ensures Shr64(Xor64(x, y), n) == Xor64(Shr64(x, n), Shr64(y, n))
    decreases n
  {
    Xor64IsXor(x, y);
    if n > 0 {
      XorHalves(x, y);
      Xor64IsXor(x / 2, y / 2);
      ShrOfXor(x / 2, y / 2, n - 1);
    }
  }

  lemma {:induction false} ShrTwice(x: Word64, m: nat, n: nat)
    ensures Shr64(Shr64(x, m), n) == Shr64(x, m + n)
    decreases m
  {
    if m > 0 {
      ShrTwice(x / 2, m - 1, n);
    }
  }

  lemma {:induction false} ShrVanishes(x: Word64, n: nat)
    requires x < Pow2(n)
    ensures Shr64(x, n) == 0
    decreases n
  {
    if n > 0 {
      ShrVanishes(x / 2, n - 1);
    }
  }

  /** The inverse of XorShift for shifts that three times over clear the word. */
  function Unshift(y: Word64, n: nat): Word64 {
    Xor64(Xor64(y, Shr64(y, n)), Shr64(y, 2 * n))
  }

  lemma XorTelescopes(a: Word64, b: Word64, c: Word64)
    ensures Xor64(Xor64(Xor64(a, b), Xor64(b, c)), c) == a
  {
    Xor64IsXor(a, b);
    Xor64IsXor(b, c);
    Xor64IsXor(Xor64(a, b), Xor64(b, c));
    Xor64IsXor(Xor64(Xor64(a, b), Xor64(b, c)), c);
    XorAssociates(a, b, Xor(b, c));
    XorAssociates(b, b, c);
    XorSelf(b);
    XorCommutes(0, c);
    XorZero(c);
    XorCancels(a, c);
  }

  lemma Xor64Zero(x: Word64)
    ensures Xor64(x, 0) == x
  {
    XorZero(x);
  }

  lemma ShiftsOut(x: Word64, n: nat)
    requires n >= 22
    ensures Shr64(x, 3 * n) == 0
  {
    Pow2Of64();
    ShrVanishes(x, 64);
    ShrTwice(x, 64, 3 * n - 64);
    ShrZero(3 * n - 64);
  }

  lemma {:induction false} ShrZero(n: nat)
    ensures Shr64(0, n) == 0
  {
    if n > 0 {
      ShrZero(n - 1);
    }
  }

  lemma ShiftsOf(x: Word64, n: nat)
    requires n >= 22
    ensures Shr64(XorShift(x, n), n) == Xor64(Shr64(x, n), Shr64(x, 2 * n))
    ensures Shr64(XorShift(x, n), 2 * n) == Shr64(x, 2 * n)
  {
    ShrOfXor(x, Shr64(x, n), n);
    ShrTwice(x, n, n);
    ShrOfXor(x, Shr64(x, n), 2 * n);
    ShrTwice(x, n, 2 * n);
    ShiftsOut(x, n);
    Xor64Zero(Shr64(x, 2 * n));
  }

  lemma ShiftUndone(x: Word64, n: nat)
    requires n >= 22
    ensures Unshift(XorShift(x, n), n) == x
  {
    ShiftsOf(x, n);
    XorTelescopes(x, Shr64(x, n), Shr64(x, 2 * n));
  }

  lemma ShiftRedone(y: Word64, n: nat)
    requires n >= 22
    ensures XorShift(Unshift(y, n), n) == y
  {
    var a, b, c := y, Shr64(y, n), Shr64(y, 2 * n);
    ShrOfXor(Xor64(a, b), c, n);
    ShrOfXor(a, b, n);
    ShrTwice(y, n, n);
    ShrTwice(y, 2 * n, n);
    ShiftsOut(y, n);
    Xor64Zero(Xor64(b, c));
    assert Shr64(Unshift(y, n), n) == Xor64(b, c);
    Xor64Regroup(a, b, c);
  }

  lemma Xor64Regroup(a: Word64, b: Word64, c: Word64)
    ensures Xor64(Xor64(Xor64(a, b), c), Xor64(b, c)) == a
  {
    Xor64IsXor(a, b);
    Xor64IsXor(b, c);
    Xor64IsXor(Xor64(a, b), c);
    Xor64IsXor(Xor64(Xor64(a, b), c), Xor64(b, c));
    XorAssociates(a, b, c);
    XorCancels(a, Xor(b, c));
  }

  const UNMIX1: Word64 := 0x96de_1b17_3f11_9089
  const UNMIX2: Word64 := 0x3196_42b2_d24d_8ec3

  /** Multiplication by c is undone by d when c * d is 1 modulo 2^64. */
  lemma MulUndone(x: Word64, c: Word64, d: Word64, q: int)
    requires c as int * d == 1 + q * WORD64
    ensures Mul64(Mul64(x, c), d) == x
  {
    var xc: int := x as int * c;
    var k := xc / WORD64;
    var y: int := xc % WORD64;
    assert y == xc - k * WORD64;
    assert y * d == xc * d - k * WORD64 * d;
    assert xc * d == x * (c as int * d) == x + x * q * WORD64;
    assert y * d == x + (x * q - k * d) * WORD64;
    ReduceMultiple(x, x * q - k * d);
  }

  lemma ReduceMultiple(x: Word64, t: int)
    ensures (x + t * WORD64) % WORD64 == x
  {
  }

  function Unfinalize(y: Word64): Word64 {
    Unshift(Mul64(Unshift(Mul64(Unshift(y, 31), UNMIX2), 27), UNMIX1), 30)
  }

  lemma FinalizeUndone(x: Word64)
    ensures Unfinalize(Finalize(x)) == x
  {
    var a := XorShift(x, 30);
    var b := XorShift(Mul64(a, MIX1), 27);
    ShiftUndone(Mul64(b, MIX2), 31);
    MulUndone(b, MIX2, UNMIX2, 2077064247507883091);
    ShiftUndone(Mul64(a, MIX1), 27);
    MulUndone(a, MIX1, UNMIX1, 8125545580553827436);
    ShiftUndone(x, 30);
  }

  lemma FinalizeRedone(y: Word64)
    ensures Finalize(Unfinalize(y)) == y
  {
    var a := Unshift(y, 31);
    var b := Unshift(Mul64(a, UNMIX2), 27);
    ShiftRedone(Mul64(b, UNMIX1), 30);
    MulUndone(b, UNMIX1, MIX1, 8125545580553827436);
    ShiftRedone(Mul64(a, UNMIX2), 27);
    MulUndone(a, UNMIX2, MIX2, 2077064247507883091);
    ShiftRedone(y, 31);
  }

  function Unmix64(y: Word64, key: Word): Word64 {
    Xor64(Unfinalize(y), Mul64(key, GOLDEN))
  }

  /** ref_mix64 is a bijection for every key: this is its two-sided inverse. */
  lemma Mix64IsBijection(x: Word64, key: Word)
    ensures Unmix64(Mix64(x, key), key) == x && Mix64(Unmix64(x, key), key) == x
  {
    var k := Mul64(key, GOLDEN);
    FinalizeUndone(Xor64(x, k));
    Xor64Cancels(x, k);
    Xor64Cancels(Unfinalize(x), k);
    FinalizeRedone(x);
  }

  lemma Xor64Cancels(x: Word64, y: Word64)
    ensures Xor64(Xor64(x, y), y) == x
  {
    Xor64IsXor(x, y);
    Xor64IsXor(Xor64(x, y), y);
    XorCancels(x, y);
  }
}
