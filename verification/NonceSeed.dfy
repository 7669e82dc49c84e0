/** The 32 seed bytes chain_fill derives from a nonce number. */
module NonceSeed {
  import opened Words
  import opened Words64
  import opened Stream
  import opened ChainFill
  import opened ByteLaws
  import opened MixLaws
  import opened SplitMix

  function FirstWord(gid: Word64): Word64 {
    Add64(Mul64(gid, GOLDEN), 0xFEED)
  }

  function Churn(x: Word64): Word64 {
    Mul64(XorShift(x, 30), MIX1)
  }

  /** n words, each churned from the one before, as their bytes in memory. */
  function ChurnedBytes(x: Word64, n: nat): (b: seq<Byte>)
    ensures |b| == 8 * n
    decreases n, x
  {
    if n == 0 then [] else Le64(Churn(x)) + ChurnedBytes(Churn(x), n - 1)
  }

  function SeedOf(gid: Word64): (seed: seq<Byte>)
    ensures |seed| == 32
  {
    ChurnedBytes(FirstWord(gid), 4)
  }

  /** The seeding loop of chain_fill. */
  method DeriveSeed(gid: Word64) returns (seed: seq<Byte>)
    ensures seed == SeedOf(gid)
  {
    var x := Add64(Mul64(gid, GOLDEN), 0xFEED);
    seed := [];
    for i := 0 to 4
      invariant SeedOf(gid) == seed + ChurnedBytes(x, 4 - i)
    {
      ghost var rest := ChurnedBytes(Churn(x), 3 - i);
      assert ChurnedBytes(x, 4 - i) == Le64(Churn(x)) + rest;
      assert seed + (Le64(Churn(x)) + rest) == seed + Le64(Churn(x)) + rest;
      x := Mul64(XorShift(x, 30), MIX1);
      seed := seed + Le64(x);
    }
  }

  // ----- different nonces, different seeds -----

  lemma {:induction false} BytesDetermine(x: nat, y: nat, k: nat, p: nat)
    requires p == Pow2(8 * k) && x < p && y < p && forall i: nat | i < k :: LeByte(x, i) == LeByte(y, i)
    ensures x == y
    decreases k
  {
    if k > 0 {
      assert LeByte(x, 0) == LeByte(y, 0);
      Pow2Of8();
      Pow2Adds(8, 8 * (k - 1));
      forall i: nat | i < k - 1 ensures LeByte(x / 0x100, i) == LeByte(y / 0x100, i) {
        assert LeByte(x, i + 1) == LeByte(y, i + 1);
      }
      BytesDetermine(x / 0x100, y / 0x100, k - 1, Pow2(8 * (k - 1)));
    }
  }

  lemma Le64Injective(x: Word64, y: Word64)
    requires Le64(x) == Le64(y)
    ensures x == y
  {
    forall i: nat | i < 8 ensures LeByte(x, i) == LeByte(y, i) {
      assert Le64(x)[i] == Le64(y)[i];
    }
    Pow2Of64();
    BytesDetermine(x, y, 8, Pow2(64));
  }

  lemma ChurnInjective(x: Word64, y: Word64)
    requires Churn(x) == Churn(y)
    ensures x == y
  {
    MulUndone(XorShift(x, 30), MIX1, UNMIX1, 8125545580553827436);
    MulUndone(XorShift(y, 30), MIX1, UNMIX1, 8125545580553827436);
    ShiftUndone(x, 30);
    ShiftUndone(y, 30);
  }

  lemma FirstWordInjective(a: Word64, b: Word64)
    requires FirstWord(a) == FirstWord(b)
    ensures a == b
  {
    assert Mul64(a, GOLDEN) == Mul64(b, GOLDEN);
    MulUndone(a, GOLDEN, UNGOLDEN, 10771413168148108919);
    MulUndone(b, GOLDEN, UNGOLDEN, 10771413168148108919);
  }

  /** Different nonce numbers give different seeds. */
  lemma SeedsDiffer(a: Word64, b: Word64)
    requires SeedOf(a) == SeedOf(b)
    ensures a == b
  {
    var x, y := FirstWord(a), FirstWord(b);
    var s, t := ChurnedBytes(Churn(x), 3), ChurnedBytes(Churn(y), 3);
    assert Le64(Churn(x)) == (Le64(Churn(x)) + s)[..8] == (Le64(Churn(y)) + t)[..8] == Le64(Churn(y));
    Le64Injective(Churn(x), Churn(y));
    ChurnInjective(x, y);
    FirstWordInjective(a, b);
  }

  // ----- the seed, byte by byte -----

  /** One word from the last: xor with itself shifted by 30, and a product. */
  predicate Churns(x: nat, y: nat) {
    y == Folded(x, 30) * 0xbf58476d1ce4e5b9 % 0x1_0000_0000_0000_0000
  }

  lemma ChurnIs(x: Word64)
    ensures Churns(x, Churn(x))
  {
    XorShiftIs(x, 30);
  }

  lemma {:induction false} ChurnedLaw(x: Word64, xs: seq<nat>, i: nat, k: nat)
    requires |xs| > i + 1 && xs[0] == x && k < 8 && forall j | 0 <= j < |xs| - 1 :: Churns(xs[j], xs[j + 1])
    ensures ChurnedBytes(x, |xs| - 1)[8 * i + k] == ByteOf(xs[i + 1], k)
    decreases i
  {
    ChurnIs(x);
    assert Churns(xs[0], xs[1]) && xs[1] == Churn(x);
    if i == 0 {
      LeByteIs(xs[1], k);
    } else {
      var ys := xs[1..];
      forall j | 0 <= j < |ys| - 1 ensures Churns(ys[j], ys[j + 1]) {
        assert ys[j] == xs[j + 1] && ys[j + 1] == xs[j + 1 + 1];
      }
      ChurnedLaw(Churn(x), ys, i - 1, k);
    }
  }

  lemma FirstWordIs(gid: Word64)
    ensures FirstWord(gid) == (gid as int * 0x9e3779b97f4a7c15 + 0xFEED) % 0x1_0000_0000_0000_0000
  {
    SumOfRemainder(gid as int * GOLDEN, 0xFEED);
  }

  lemma SumOfRemainder(t: nat, c: nat)
    ensures (t % WORD64 + c) % WORD64 == (t + c) % WORD64
  {
  }

  /** Byte 8 i + k of the seed is byte k of word i + 1, counting from the nonce's first word. */
  lemma SeedLaw(gid: Word64, x: Word64, xs: seq<nat>, i: nat, k: nat)
    requires x == (gid as int * 0x9e3779b97f4a7c15 + 0xFEED) % 0x1_0000_0000_0000_0000
    requires |xs| == 5 && xs[0] == x && i < 4 && k < 8
    requires forall j | 0 <= j < |xs| - 1 :: Churns(xs[j], xs[j + 1])
    ensures SeedOf(gid)[8 * i + k] == ByteOf(xs[i + 1], k)
  {
    FirstWordIs(gid);
    ChurnedLaw(x, xs, i, k);
  }
}
