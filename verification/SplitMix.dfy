/** splitmix64: a counter stepped by an odd constant and finalized. */
module SplitMix {
  import opened Iteration
  import opened Words64

  /** The counter, updated by every call. */
  class Source {
    var state: Word64

    constructor (seed: Word64)
      ensures state == seed
    {
      state := seed;
    }

    method Next() returns (z: Word64)
      modifies this
      ensures state == Advance(old(state)) && z == Finalize(state)
    {
      state := Add64(state, GOLDEN);
      z := XorShift(state, 30);
      z := XorShift(Mul64(z, MIX1), 27);
      z := XorShift(Mul64(z, MIX2), 31);
    }
  }

  function Advance(s: Word64): Word64 {
    Add64(s, GOLDEN)
  }

  /** The word the n-th call returns, counting from 1. */
  function Emitted(s: Word64, n: nat): Word64 {
    Finalize(Iterate<Word64>(Advance, s, n))
  }

  lemma {:induction false} StateAfter(s: Word64, n: nat)
    ensures Iterate<Word64>(Advance, s, n) == (s + n * GOLDEN) % WORD64
    decreases n
  {
    if n > 0 {
      StateAfter(Advance(s), n - 1);
      StepTogether(s, (n - 1) * GOLDEN);
      assert n * GOLDEN == GOLDEN + (n - 1) * GOLDEN;
    }
  }

  lemma StepTogether(s: Word64, t: int)
    ensures (Advance(s) + t) % WORD64 == (s + (GOLDEN + t)) % WORD64
  {
  }

  const UNGOLDEN: int := 0xf1de_83e1_9937_733d

  /** Fewer than 2^64 steps of an odd constant never cancel. */
  lemma OddStepsDiffer(s: Word64, i: nat, j: nat)
    requires i < j < i + WORD64
    ensures (s + i * GOLDEN) % WORD64 != (s + j * GOLDEN) % WORD64
  {
    if (s + i * GOLDEN) % WORD64 == (s + j * GOLDEN) % WORD64 {
      var d := j - i;
      var k := (s + j * GOLDEN) / WORD64 - (s + i * GOLDEN) / WORD64;
      assert d * GOLDEN == k * WORD64;
      assert d * GOLDEN * UNGOLDEN == d + d * 10771413168148108919 * WORD64;
      assert d == (k * UNGOLDEN - d * 10771413168148108919) * WORD64;
      NoSmallMultiple(d, k * UNGOLDEN - d * 10771413168148108919);
    }
  }

  lemma NoSmallMultiple(d: int, t: int)
    requires d == t * WORD64
    ensures !(0 < d < WORD64)
  {
  }

  /** No word comes twice within 2^64 consecutive calls, from any state. */
  lemma NoWordTwice(s: Word64, i: nat, j: nat)
    requires i < j < i + WORD64
    ensures Emitted(s, i) != Emitted(s, j)
  {
    StateAfter(s, i);
    StateAfter(s, j);
    OddStepsDiffer(s, i, j);
    FinalizeUndone(Iterate<Word64>(Advance, s, i));
    FinalizeUndone(Iterate<Word64>(Advance, s, j));
  }

  lemma WholeTurns(s: Word64, n: nat, k: nat)
    ensures (s + (n + k * WORD64) * GOLDEN) % WORD64 == (s + n * GOLDEN) % WORD64
  {
    var t := k * GOLDEN;
    assert (n + k * WORD64) * GOLDEN == n * GOLDEN + t * WORD64;
    AddMultiple(s + n * GOLDEN, t);
  }

  lemma AddMultiple(x: nat, t: nat)
    ensures (x + t * WORD64) % WORD64 == x % WORD64
  {
    var q, r := x / WORD64, x % WORD64;
    assert x + t * WORD64 == (q + t) * WORD64 + r;
  }

  /** Two calls return the same word exactly when a multiple of 2^64 calls lies between them. */
  lemma WordsRepeatExactly(s: Word64, i: nat, j: nat)
    requires i <= j
    ensures Emitted(s, i) == Emitted(s, j) <==> (j - i) % WORD64 == 0
  {
    var k, r := (j - i) / WORD64, (j - i) % WORD64;
    assert j == i + r + k * WORD64;
    WholeTurns(s, i + r, k);
    StateAfter(s, j);
    StateAfter(s, i + r);
    if r > 0 {
      NoWordTwice(s, i, i + r);
    }
  }
}
