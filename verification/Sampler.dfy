/** HC128_U32, the rejection sampler over the keystream, and the multiply-high draw. */
module Sampler {
  import opened Words
  import opened Iteration
  import opened Cipher
  import opened HC128

  // ----- the keystream cursor -----

  /** A generator and the cursor into its sixteen buffered words. */
  datatype Rng = Rng(g: Gen, ki: nat)

  function Refill(next: Gen -> Gen, r: Rng): (f: Rng)
    ensures f.ki <= 15
  {
    if r.ki > 15 then Rng(next(r.g), 0) else r
  }

  /** The word under the cursor. */
  function Peek(next: Gen -> Gen, r: Rng): Word {
    var f := Refill(next, r);
    f.g.ks[f.ki]
  }

  function Drop(next: Gen -> Gen, r: Rng): Rng {
    var f := Refill(next, r);
    f.(ki := f.ki + 1)
  }

  /** The cursor n words on. */
  function Skip(next: Gen -> Gen, r: Rng, n: nat): Rng
    decreases n, r
  {
    if n == 0 then r else Skip(next, Drop(next, r), n - 1)
  }

  lemma {:induction false} SkipLast(next: Gen -> Gen, r: Rng, n: nat)
    ensures Skip(next, r, n + 1) == Drop(next, Skip(next, r, n))
    decreases n
  {
    if n > 0 {
      SkipLast(next, Drop(next, r), n - 1);
    }
  }

  // ----- masking -----

  function BitLen(x: nat): nat {
    if x == 0 then 0 else 1 + BitLen(x / 2)
  }

  /** max - 1 in 32-bit arithmetic. */
  function Top(max: Word): Word {
    if max == 0 then WORD - 1 else max - 1
  }

  /** __builtin_clz */
  function LeadingZeros(x: nat): nat {
    if BitLen(x) <= 32 then 32 - BitLen(x) else 0
  }

  function OrOne(x: nat): nat {
    if Odd(x) then x else x + 1
  }

  function Mask(max: Word): nat {
    Shr(WORD - 1, LeadingZeros(OrOne(Top(max))))
  }

  function Masked(w: Word, max: Word): nat {
    And(w, Mask(max))
  }

  predicate Accepts(w: Word, max: Word) {
    Masked(w, max) <= Top(max)
  }

  lemma {:induction false} BitLenBounds(x: nat)
    requires x > 0
    ensures Pow2(BitLen(x) - 1) <= x < Pow2(BitLen(x))
  {
    if x > 1 {
      BitLenBounds(x / 2);
    }
  }

  lemma {:induction false} BitLenBelow(x: nat, n: nat)
    requires x < Pow2(n)
    ensures BitLen(x) <= n
  {
    if x > 0 {
      BitLenBelow(x / 2, n - 1);
    }
  }

  lemma {:induction false} ShrOnes(a: nat, b: nat)
    ensures Shr(Pow2(a + b) - 1, a) == Pow2(b) - 1
    decreases a
  {
    if a > 0 {
      ShrOnes(a - 1, b);
      assert Pow2(a + b) == 2 * Pow2(a - 1 + b);
    }
  }

  lemma {:induction false} AndOnes(w: nat, b: nat, p: nat)
    requires p == Pow2(b)
    ensures And(w, p - 1) == w % p
    decreases b
  {
    if b > 0 {
      var h := Pow2(b - 1);
      AndOnes(w / 2, b - 1, h);
      AndOdd(w, h);
      HalfRemainder(w, h);
    } else {
      DivisionIsUnique(w, 1, w, 0);
    }
  }

  lemma AndOdd(w: nat, p: nat)
    requires p >= 1
    ensures And(w, 2 * p - 1) == w % 2 + 2 * And(w / 2, p - 1)
  {
    assert (2 * p - 1) / 2 == p - 1;
  }

  lemma HalfRemainder(w: nat, p: nat)
    requires p > 0
    ensures w % (2 * p) == w % 2 + 2 * (w / 2 % p)
  {
    var q, r := w / 2 / p, w / 2 % p;
    assert w / 2 == q * p + r;
    assert w == q * (2 * p) + (2 * r + w % 2);
    DivisionIsUnique(w, 2 * p, q, 2 * r + w % 2);
  }

  /** The range the mask keeps: the least power of two above Top(max), and at least 2. */
  function Range(max: Word): nat {
    Pow2(BitLen(OrOne(Top(max))))
  }

  lemma WordLength(x: nat)
    requires x < WORD
    ensures BitLen(x) <= 32
  {
    Pow2Of32();
    BitLenBelow(x, 32);
  }

  /** A power of two above x, and at most twice x. */
  lemma PowerAbove(x: nat)
    requires x > 0
    ensures 2 <= Pow2(BitLen(x)) <= 2 * x && x < Pow2(BitLen(x))
  {
    BitLenBounds(x);
  }

  lemma OrOneIs(t: Word)
    ensures t <= OrOne(t) <= t + 1 && 0 < OrOne(t) < WORD
  {
  }

  lemma RangeFits(max: Word)
    ensures BitLen(OrOne(Top(max))) <= 32
    ensures Range(max) >= 2 && Top(max) < Range(max) <= 2 * (Top(max) + 1)
  {
    var t := Top(max);
    OrOneIs(t);
    PowerAbove(OrOne(t));
    WordLength(OrOne(t));
  }

  /** Masking is the remainder modulo a power of two that max more than half fills. */
  lemma MaskedIsRemainder(w: Word, max: Word)
    ensures Masked(w, max) == w % Range(max)
  {
    var b := BitLen(OrOne(Top(max)));
    RangeFits(max);
    Pow2Of32();
    ShrOnes(32 - b, b);
    AndOnes(w, b, Pow2(b));
  }

  // ----- how often each result comes up -----

  /** The words a draw turns into r. */
  ghost function Preimages(max: Word, r: nat): set<int> {
    set w: int | 0 <= w < WORD && Accepts(w, max) && Masked(w, max) == r
  }

  ghost function Accepted(max: Word): set<int> {
    set w: int | 0 <= w < WORD && Accepts(w, max)
  }

  ghost function Residues(p: nat, r: nat, top: nat): set<int>
    requires p > 0
  {
    set w: int | 0 <= w < top && w % p == r
  }

  lemma {:induction false} CountResidues(p: nat, r: nat, n: nat, top: nat)
    requires r < p && top == n * p
    ensures |Residues(p, r, top)| == n
    decreases n
  {
    if n == 0 {
      assert Residues(p, r, top) == {};
    } else {
      var base := top - p;
      assert base == (n - 1) * p;
      CountResidues(p, r, n - 1, base);
      OneResidue(p, r, n - 1, base);
      assert Residues(p, r, top) == Residues(p, r, base) + {base + r};
    }
  }

  lemma OneResidue(p: nat, r: nat, n: nat, base: nat)
    requires r < p && base == n * p
    ensures forall w | base <= w < base + p :: w % p == r <==> w == base + r
  {
    forall w | base <= w < base + p ensures w % p == r <==> w == base + r {
      DivisionIsUnique(w, p, n, w - base);
    }
  }

  ghost function LowResidues(p: nat, m: nat, top: nat): set<int>
    requires p > 0
  {
    set w: int | 0 <= w < top && w % p <= m
  }

  lemma {:induction false} CountLowResidues(p: nat, m: nat, n: nat, top: nat)
    requires m < p && top == n * p
    ensures |LowResidues(p, m, top)| == n * (m + 1)
    decreases m
  {
    CountResidues(p, m, n, top);
    if m == 0 {
      assert LowResidues(p, 0, top) == Residues(p, 0, top);
    } else {
      CountLowResidues(p, m - 1, n, top);
      assert LowResidues(p, m, top) == LowResidues(p, m - 1, top) + Residues(p, m, top);
      assert n * (m + 1) == n * m + n;
    }
  }

  /** How many times the kept range fits in 32 bits. */
  ghost function Multiplicity(max: Word): (n: nat)
    ensures n > 0 && n * Range(max) == WORD
  {
    RangeFits(max);
    var b := BitLen(OrOne(Top(max)));
    Pow2Adds(32 - b, b);
    Pow2Of32();
    Pow2(32 - b)
  }

  lemma AllMaskedAreRemainders(max: Word)
    ensures forall w: Word :: Masked(w, max) == w % Range(max)
  {
    forall w: Word ensures Masked(w, max) == w % Range(max) {
      MaskedIsRemainder(w, max);
    }
  }

  /** Every result a draw can return comes from equally many words. */
  lemma DrawIsUniform(max: Word, r: nat)
    requires r <= Top(max)
    ensures |Preimages(max, r)| == Multiplicity(max)
  {
    RangeFits(max);
    AllMaskedAreRemainders(max);
    assert Preimages(max, r) == Residues(Range(max), r, WORD);
    CountResidues(Range(max), r, Multiplicity(max), WORD);
  }

  /** At least half of all words are accepted. */
  lemma HalfAreAccepted(max: Word)
    ensures 2 * |Accepted(max)| >= WORD
  {
    var n: nat, p: nat, m: nat := Multiplicity(max), Range(max), Top(max);
    RangeFits(max);
    AllMaskedAreRemainders(max);
    assert Accepted(max) == LowResidues(p, m, WORD);
    CountLowResidues(p, m, n, WORD);
    ScaleUp(n, p, m + 1);
  }

  lemma ScaleUp(n: nat, p: nat, h: nat)
    requires p <= 2 * h
    ensures n * p <= 2 * (n * h)
  {
    assert n * p <= n * (2 * h);
  }

  lemma NeverRejectsByRange(max: Word)
    ensures (forall w: Word :: Accepts(w, max)) <==> Range(max) == Top(max) + 1
  {
    RangeFits(max);
    FitsInWord(max);
    AllMaskedAreRemainders(max);
    RemaindersBelow(Range(max), Top(max));
    assert forall w: Word :: Accepts(w, max) <==> Low(w, Range(max), Top(max));
  }

  lemma {:induction false} BitLenIs(x: nat, k: nat)
    requires k > 0 && Pow2(k - 1) <= x < Pow2(k)
    ensures BitLen(x) == k
    decreases k
  {
    if k > 1 {
      BitLenIs(x / 2, k - 1);
    }
  }

  /** 2^k - 1 has k bits, and setting its low bit changes nothing. */
  lemma AllOnes(k: nat, x: nat)
    requires k > 0 && x == Pow2(k) - 1
    ensures OrOne(x) == x > 0 && BitLen(x) == k
  {
    assert Pow2(k) == 2 * Pow2(k - 1);
    BitLenIs(x, k);
  }

  predicate FillsRange(max: Word, k: nat) {
    1 <= k <= 32 && Top(max) + 1 == Pow2(k)
  }

  /** A draw never rejects exactly when max is a power of two from 2 up, or 0, which the
      32-bit decrement makes stand for 2^32. A bound of 1 does reject. */
  lemma NeverRejects(max: Word)
    ensures (forall w: Word :: Accepts(w, max)) <==> exists k :: FillsRange(max, k)
  {
    NeverRejectsByRange(max);
    RangeFits(max);
    if Range(max) == Top(max) + 1 {
      assert FillsRange(max, BitLen(OrOne(Top(max))));
    }
    if k :| FillsRange(max, k) {
      AllOnes(k, Top(max));
    }
  }

  /** Every result is below max exactly when max is not 0. */
  lemma ResultsBelowMax(max: Word)
    ensures (forall w: Word | Accepts(w, max) :: Masked(w, max) < max) <==> max > 0
  {
    if max == 0 {
      Pow2Of32();
      assert FillsRange(0, 32);
      NeverRejects(0);
      var w: Word := 0;
      assert Accepts(w, max);
    }
  }

  predicate Low(w: Word, p: nat, m: nat)
    requires p > 0
  {
    w % p <= m
  }

  lemma RemaindersBelow(p: nat, m: nat)
    requires m < p <= WORD
    ensures (forall w: Word :: Low(w, p, m)) <==> p == m + 1
  {
    if p != m + 1 {
      var w: Word := m + 1;
      DivisionIsUnique(w, p, 0, w);
      assert !Low(w, p, m);
    }
  }

  lemma FitsInWord(max: Word)
    ensures Range(max) <= WORD
  {
    var n := Multiplicity(max);
    assert n * Range(max) >= Range(max);
  }

  // ----- the draw -----

  /** The n-th word from the cursor is the first one accepted. */
  ghost predicate FirstAccepted(next: Gen -> Gen, r: Rng, max: Word, n: nat) {
    AcceptedAt(next, r, max, n) && forall i: nat | i < n :: !AcceptedAt(next, r, max, i)
  }

  predicate AcceptedAt(next: Gen -> Gen, r: Rng, max: Word, n: nat) {
    Accepts(Peek(next, Skip(next, r, n)), max)
  }

  /** What HC128_U32 returns and the cursor it leaves; None when it never returns. */
  ghost function Draw(next: Gen -> Gen, r: Rng, max: Word): (d: Option<(Rng, nat)>)
    ensures d.Some? ==> d.value.1 <= Top(max)
  {
    if n: nat :| FirstAccepted(next, r, max, n) then
      Some((Skip(next, r, n + 1), Masked(Peek(next, Skip(next, r, n)), max)))
    else None
  }

  lemma DrawAt(next: Gen -> Gen, r: Rng, max: Word, n: nat)
    requires FirstAccepted(next, r, max, n)
    ensures Draw(next, r, max) == Some((Skip(next, r, n + 1), Masked(Peek(next, Skip(next, r, n)), max)))
  {
  }

  // ----- the code -----

  /** The state object and the cursor are at r. */
  ghost predicate At(state: State, ki: nat, r: Rng)
    reads state, state.P, state.Q, state.keystream
  {
    state.Valid() && r == Rng(state.Value(), ki)
  }

  /** One word from the buffer, refilled when it is used up. */
  method TakeWord(state: State, ki: nat, ghost next: Gen -> Gen, ghost r: Rng) returns (w: Word, kj: nat)
    requires At(state, ki, r) && IsNext(next)
    modifies state, state.P, state.Q, state.keystream
    ensures w == Peek(next, r) && At(state, kj, Drop(next, r))
  {
    kj := ki;
    if kj > 15 {
      state.NextKeys();
      kj := 0;
    }
    w := state.keystream[kj];
    kj := kj + 1;
  }

  /** HC128_U32, for runs in which some word is eventually accepted. */
  method U32(state: State, ki: nat, max: Word, ghost next: Gen -> Gen, ghost start: Rng)
    returns (r: nat, kj: nat, ghost end: Rng)
    requires At(state, ki, start) && IsNext(next) && Draw(next, start, max).Some?
    modifies state, state.P, state.Q, state.keystream
    ensures At(state, kj, end) && Draw(next, start, max) == Some((end, r))
  {
    ghost var n: nat :| FirstAccepted(next, start, max, n);
    DrawAt(next, start, max, n);
    var top: nat := Top(max);
    var mask := Shr(WORD - 1, LeadingZeros(OrOne(top)));
    ghost var i := 0;
    kj, end := ki, start;
    r := top + 1;
    while r > top
      invariant i <= n + 1 && end == Skip(next, start, i) && At(state, kj, end)
      invariant r > top ==> i <= n
      invariant r <= top ==> i == n + 1 && r == Masked(Peek(next, Skip(next, start, n)), max)
      decreases n + 1 - i
    {
      var w;
      w, kj := TakeWord(state, kj, next, end);
      r := And(w, mask);
      SkipLast(next, start, i);
      end := Drop(next, end);
      assert AcceptedAt(next, start, max, i) <==> r <= top;
      i := i + 1;
    }
  }
}
