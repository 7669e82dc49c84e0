/** Unsigned machine words as bounded integers: wrap-around, bitwise operations
    and little-endian bytes written out over unbounded arithmetic. */
module Words {
  const WORD: int := 0x1_0000_0000

  type Byte = b: int | 0 <= b < 256
  type Word = w: int | 0 <= w < WORD

  function Add(x: Word, y: Word): Word {
    if x + y < WORD then x + y else x + y - WORD
  }

  function Sub(x: Word, y: Word): Word {
    if y <= x then x - y else x - y + WORD
  }

  /** n zeros: bytes, and so words of any width. */
  function Zeros(n: nat): (z: seq<Byte>)
    ensures |z| == n
  {
    seq(n, _ => 0)
  }

  // ----- division -----

  lemma DivisionIsUnique(x: nat, d: nat, q: nat, r: nat)
    requires r < d && x == q * d + r
    ensures x / d == q && x % d == r
  {
    var e := q - x / d;
    assert e * d == x % d - r;
    assert e >= 1 ==> e * d >= d;
    assert e <= -1 ==> e * d <= -1 * d;
  }

  // ----- bits -----

  function Pow2(n: nat): (p: nat)
    ensures p >= 1
  {
    if n == 0 then 1 else 2 * Pow2(n - 1)
  }

  predicate Odd(x: nat) {
    x % 2 == 1
  }

  function Xor(x: nat, y: nat): nat
    decreases x + y, x, y
  {
    if x == 0 && y == 0 then 0 else (if Odd(x) != Odd(y) then 1 else 0) + 2 * Xor(x / 2, y / 2)
  }

  function And(x: nat, y: nat): nat
    decreases x, y
  {
    if x == 0 || y == 0 then 0 else (if Odd(x) && Odd(y) then 1 else 0) + 2 * And(x / 2, y / 2)
  }

  function Shr(x: nat, n: nat): nat
    decreases n, x
  {
    if n == 0 then x else Shr(x / 2, n - 1)
  }

  lemma {:induction false} Pow2Adds(a: nat, b: nat)
    ensures Pow2(a + b) == Pow2(a) * Pow2(b)
  {
    if a > 0 {
      Pow2Adds(a - 1, b);
      assert Pow2(a + b) == 2 * Pow2(a - 1 + b);
    }
  }

  lemma {:induction false} Pow2Grows(a: nat, b: nat)
    requires a <= b
    ensures Pow2(a) <= Pow2(b)
    decreases b - a
  {
    if a < b {
      Pow2Grows(a, b - 1);
    }
  }

  lemma Pow2Of8()
    ensures Pow2(8) == 256
  {
    assert Pow2(4) == 16;
    Pow2Adds(4, 4);
  }

  lemma Pow2Of32()
    ensures Pow2(32) == WORD
  {
    Pow2Of8();
    Pow2Adds(8, 8);
    Pow2Adds(16, 16);
  }

  lemma {:induction false} XorBound(x: nat, y: nat, n: nat)
    requires x < Pow2(n) && y < Pow2(n)
    ensures Xor(x, y) < Pow2(n)
  {
    if n > 0 {
      XorBound(x / 2, y / 2, n - 1);
    }
  }

  lemma {:induction false} XorCommutes(x: nat, y: nat)
    ensures Xor(x, y) == Xor(y, x)
    decreases x + y
  {
    if x != 0 || y != 0 {
      XorCommutes(x / 2, y / 2);
    }
  }

  lemma XorHalves(x: nat, y: nat)
    ensures Xor(x, y) / 2 == Xor(x / 2, y / 2)
    ensures Odd(Xor(x, y)) == (Odd(x) != Odd(y))
  {
  }

  lemma {:induction false} XorAssociates(x: nat, y: nat, z: nat)
    ensures Xor(Xor(x, y), z) == Xor(x, Xor(y, z))
    decreases x + y + z
  {
    if x + y + z > 0 {
      XorAssociates(x / 2, y / 2, z / 2);
      var xy, yz := Xor(x, y), Xor(y, z);
      XorHalves(x, y);
      XorHalves(y, z);
      XorHalves(xy, z);
      XorHalves(x, yz);
      SameHalves(Xor(xy, z), Xor(x, yz));
    }
  }

  lemma SameHalves(a: nat, b: nat)
    requires a / 2 == b / 2 && Odd(a) == Odd(b)
    ensures a == b
  {
  }

  lemma {:induction false} XorSelf(x: nat)
    ensures Xor(x, x) == 0
  {
    if x != 0 {
      XorSelf(x / 2);
    }
  }

  lemma {:induction false} XorZero(x: nat)
    ensures Xor(x, 0) == x
  {
    if x != 0 {
      XorZero(x / 2);
    }
  }

  /** Xor with the same value twice is the identity. */
  lemma XorCancels(x: nat, y: nat)
    ensures Xor(Xor(x, y), y) == x
  {
    XorAssociates(x, y, y);
    XorSelf(y);
    XorZero(x);
  }

  /** The number whose low n bits are those of `lo` and whose other bits are `hi`. */
  function Pack(hi: nat, lo: nat, n: nat): nat
    decreases n, hi, lo
  {
    if n == 0 then hi else 2 * Pack(hi, lo / 2, n - 1) + lo % 2
  }

  lemma {:induction false} PackIsSum(hi: nat, lo: nat, n: nat)
    requires lo < Pow2(n)
    ensures Pack(hi, lo, n) == hi * Pow2(n) + lo
  {
    if n > 0 {
      PackIsSum(hi, lo / 2, n - 1);
      assert hi * Pow2(n) == 2 * (hi * Pow2(n - 1));
    }
  }

  /** Xor works field by field. */
  lemma {:induction false} XorFields(hx: nat, lx: nat, hy: nat, ly: nat, n: nat)
    ensures Xor(Pack(hx, lx, n), Pack(hy, ly, n)) == Pack(Xor(hx, hy), Xor(lx, ly), n)
  {
    if n > 0 {
      XorFields(hx, lx / 2, hy, ly / 2, n - 1);
      XorHalves(lx, ly);
      XorHalves(Pack(hx, lx, n), Pack(hy, ly, n));
    }
  }

  function XorW(x: Word, y: Word): Word {
    Xor(x, y) % WORD
  }

  function XorB(x: Byte, y: Byte): Byte {
    Xor(x, y) % 256
  }

  lemma XorIsWord(x: Word, y: Word)
    ensures Xor(x, y) < WORD && XorW(x, y) == Xor(x, y)
  {
    Pow2Of32();
    XorBound(x, y, 32);
  }

  lemma XorIsByte(x: Byte, y: Byte)
    ensures Xor(x, y) < 256 && XorB(x, y) == Xor(x, y)
  {
    Pow2Of8();
    XorBound(x, y, 8);
  }

  lemma XorWCancels(x: Word, y: Word)
    ensures XorW(XorW(x, y), y) == x
  {
    XorIsWord(x, y);
    XorCancels(x, y);
  }

  lemma XorBCancels(x: Byte, y: Byte)
    ensures XorB(XorB(x, y), y) == x
  {
    XorIsByte(x, y);
    XorCancels(x, y);
  }

  function ShrW(x: Word, n: nat): Word
    decreases n, x
  {
    if n == 0 then x else ShrW(x / 2, n - 1)
  }

  function RotR(x: Word, n: nat): Word
    decreases n, x
  {
    if n == 0 then x else RotR(x / 2 + (x % 2) * 0x8000_0000, n - 1)
  }

  function RotL(x: Word, n: nat): Word
    decreases n, x
  {
    if n == 0 then x else RotL((x % 0x8000_0000) * 2 + x / 0x8000_0000, n - 1)
  }

  lemma {:induction false} RotLLast(x: Word, n: nat)
    ensures RotL(x, n + 1) == RotL(RotL(x, n), 1)
    decreases n
  {
    if n > 0 {
      RotLLast((x % 0x8000_0000) * 2 + x / 0x8000_0000, n - 1);
    }
  }

  lemma OneBitRound(x: Word)
    ensures RotL(RotR(x, 1), 1) == x
  {
    var y := x / 2 + (x % 2) * 0x8000_0000;
    assert RotR(x, 1) == RotR(y, 0) == y;
    assert y % 0x8000_0000 == x / 2 && y / 0x8000_0000 == x % 2;
    assert RotL(y, 1) == RotL(x, 0);
  }

  /** Rotating right and then left by the same distance is the identity. */
  lemma {:induction false} RotationsCancel(x: Word, n: nat)
    ensures RotL(RotR(x, n), n) == x
    decreases n
  {
    if n > 0 {
      var y := x / 2 + (x % 2) * 0x8000_0000;
      RotationsCancel(y, n - 1);
      RotLLast(RotR(y, n - 1), n - 1);
      assert RotR(x, 1) == RotR(y, 0) == y;
      OneBitRound(x);
    }
  }
}
