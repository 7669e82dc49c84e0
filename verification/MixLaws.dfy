/** The 64-bit mixing functions with their constants, on plain integers. */
module MixLaws {
  import opened Words
  import opened Words64
  import opened Bits
  import SplitMix

  /** x ^ (x >> n) */
  function Folded(x: nat, n: nat): nat {
    Xor(x, Shr(x, n))
  }

  lemma XorShiftIs(x: Word64, n: nat)
    ensures XorShift(x, n) == Folded(x, n)
  {
    Shr64IsShr(x, n);
    Xor64IsXor(x, Shr64(x, n));
  }

  /** The two multiplications and three xor-shifts, with their constants. */
  predicate IsFinalized(x: nat, y: nat) {
    var a := Folded(x, 30) * 0xbf58476d1ce4e5b9 % 0x1_0000_0000_0000_0000;
    var b := Folded(a, 27) * 0x94d049bb133111eb % 0x1_0000_0000_0000_0000;
    y == Folded(b, 31)
  }

  lemma FinalizeLaw(x: Word64)
    ensures IsFinalized(x, Finalize(x))
  {
    XorShiftIs(x, 30);
    var a := Mul64(XorShift(x, 30), MIX1);
    XorShiftIs(a, 27);
    var b := Mul64(XorShift(a, 27), MIX2);
    XorShiftIs(b, 31);
  }

  /** ref_mix64: the key material enters by its product with the golden constant. */
  lemma MixLaw(val: Word64, key: Word)
    ensures IsFinalized(Xor(val, key as int * 0x9e3779b97f4a7c15 % 0x1_0000_0000_0000_0000), Mix64(val, key))
  {
    var k := Mul64(key, GOLDEN);
    Xor64IsXor(val, k);
    FinalizeLaw(Xor64(val, k));
  }

  /** splitmix64 advances its counter by the golden constant. */
  lemma AdvanceLaw(s: Word64)
    ensures SplitMix.Advance(s) == (s as int + 0x9e3779b97f4a7c15) % 0x1_0000_0000_0000_0000
  {
  }
}
