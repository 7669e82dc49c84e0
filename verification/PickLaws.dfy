/** What a draw returns and a pick picks, said of the keystream words themselves. */
module PickLaws {
  import opened Words
  import opened Iteration
  import opened Fission
  import opened Cipher
  import opened Sampler
  import opened ChainFill

  /** Word i from the cursor on. */
  function WordOf(next: Gen -> Gen, r: Rng, i: nat): Word {
    Peek(next, Skip(next, r, i))
  }

  // ----- a draw -----

  /** 2^b is the least power of two that is at least max, and at least 2. */
  predicate Fits(max: Word, b: nat) {
    1 <= b <= 32 && 0 < max <= Pow2(b) && (b == 1 || Pow2(b - 1) < max)
  }

  /** Of the words from the cursor on, number n is the first whose low b bits are below max. */
  ghost predicate FirstBelow(next: Gen -> Gen, r: Rng, max: Word, b: nat, n: nat) {
    WordOf(next, r, n) % Pow2(b) < max && forall i: nat | i < n :: WordOf(next, r, i) % Pow2(b) >= max
  }

  lemma OrOneBits(t: nat, b: nat, p: nat)
    requires b >= 1 && p == Pow2(b) && t < p && (b == 1 || Pow2(b - 1) <= t)
    ensures Pow2(b - 1) <= OrOne(t) < p
  {
    assert p == 2 * Pow2(b - 1);
  }

  lemma RangeIs(max: Word, b: nat)
    requires Fits(max, b)
    ensures Range(max) == Pow2(b)
  {
    OrOneBits(max - 1, b, Pow2(b));
    BitLenIs(OrOne(max - 1), b);
  }

  lemma AcceptsIs(w: Word, max: Word, b: nat)
    requires Fits(max, b)
    ensures (Accepts(w, max) <==> w % Pow2(b) < max) && Masked(w, max) == w % Pow2(b)
  {
    RangeIs(max, b);
    MaskedIsRemainder(w, max);
  }

  /** HC128_U32: the low bits of the first word for which they are below max, and the cursor
      just behind that word. */
  lemma DrawLaw(next: Gen -> Gen, r: Rng, max: Word, b: nat, n: nat)
    requires Fits(max, b) && FirstBelow(next, r, max, b, n)
    ensures Draw(next, r, max) == Some((Skip(next, r, n + 1), WordOf(next, r, n) % Pow2(b)))
  {
    AcceptsIs(WordOf(next, r, n), max, b);
    forall i: nat | i < n ensures !AcceptedAt(next, r, max, i) {
      AcceptsIs(WordOf(next, r, i), max, b);
      assert WordOf(next, r, i) % Pow2(b) >= max;
    }
    DrawAt(next, r, max, n);
  }

  lemma FitsByte()
    ensures Fits(256, 8)
  {
    Pow2Of8();
  }

  lemma FitsWindow(window: Word) returns (b: nat)
    requires 65536 < window <= 131072
    ensures Fits(window, b) && Pow2(b) == 131072
  {
    b := 17;
    Pow2Of8();
    Pow2Adds(8, 8);
  }

  /** A draw of 256 takes the low byte of one word. */
  lemma ByteLaw(next: Gen -> Gen, r: Rng)
    ensures Draw(next, r, 256) == Some((Skip(next, r, 1), WordOf(next, r, 0) % 256))
  {
    FitsByte();
    assert WordOf(next, r, 0) % Pow2(8) < 256;
    DrawLaw(next, r, 256, 8, 0);
  }

  // ----- a pick -----

  /** v5: an index below the height, straight from the words. */
  lemma DirectPick(job: Job, r: Rng, b: nat, n: nat)
    requires job.rules.direct && Fits(|job.cache|, b) && FirstBelow(job.next, r, |job.cache|, b, n)
    ensures Pick(job, r) == Some((Skip(job.next, r, n + 1), WordOf(job.next, r, n) % Pow2(b)))
  {
    DrawLaw(job.next, r, |job.cache|, b, n);
  }

  /** The multiply-high draw: one word, scaled to the height. */
  lemma ScaledPick(job: Job, r: Rng)
    requires !job.rules.direct && job.rules.drawB && job.rules.odds >= 256
    ensures Pick(job, r) == Some((Skip(job.next, r, 1), WordOf(job.next, r, 0) as int * |job.cache| / 0x1_0000_0000))
  {
    assert Skip(job.next, r, 0) == r;
    assert Skip(job.next, r, 1) == Drop(job.next, r);
  }

  predicate BySelector(rules: Rules) {
    !rules.direct && !(rules.drawB && rules.odds >= 256)
  }

  /** A selector below the odds: an index anywhere in the chain. */
  lemma PickAnywhere(job: Job, r: Rng, s: Rng, b: nat, n: nat)
    requires BySelector(job.rules) && WordOf(job.next, r, 0) % 256 < job.rules.odds
    requires s == Skip(job.next, r, 1) && Fits(|job.cache|, b) && FirstBelow(job.next, s, |job.cache|, b, n)
    ensures Pick(job, r) == Some((Skip(job.next, s, n + 1), WordOf(job.next, s, n) % Pow2(b)))
  {
    ByteLaw(job.next, r);
    DrawLaw(job.next, s, |job.cache|, b, n);
  }

  lemma WindowLaw(next: Gen -> Gen, height: Word, s: Rng, window: Word, b: nat, n: nat)
    requires window == if height > 100000 then 100000 else height
    requires Fits(window, b) && FirstBelow(next, s, window, b, n)
    ensures PickRecent(next, height, s)
         == Some((Skip(next, s, n + 1), height - window + WordOf(next, s, n) % Pow2(b)))
  {
    DrawLaw(next, s, window, b, n);
  }

  /** A selector at or above the odds leaves the rest to the window. */
  lemma ToWindow(next: Gen -> Gen, odds: nat, height: Word, r: Rng, s: Rng)
    requires WordOf(next, r, 0) % 256 >= odds && s == Skip(next, r, 1)
    ensures PickByOdds(next, odds, height, r) == PickRecent(next, height, s)
  {
    ByteLaw(next, r);
  }

  /** Any other selector: a block of the window, counted from the window's first. */
  lemma PickFromWindow(job: Job, r: Rng, s: Rng, window: Word, b: nat, n: nat)
    requires BySelector(job.rules) && WordOf(job.next, r, 0) % 256 >= job.rules.odds
    requires window == if |job.cache| > 100000 then 100000 else |job.cache|
    requires s == Skip(job.next, r, 1) && Fits(window, b) && FirstBelow(job.next, s, window, b, n)
    ensures Pick(job, r)
         == Some((Skip(job.next, s, n + 1), |job.cache| - window + WordOf(job.next, s, n) % Pow2(b)))
  {
    ToWindow(job.next, job.rules.odds, |job.cache|, r, s);
    WindowLaw(job.next, |job.cache|, s, window, b, n);
  }

  /** On a long chain that is one of the last 100000 blocks, by the low 17 bits of a word. */
  lemma PickRecently(job: Job, r: Rng, s: Rng, window: Word, n: nat)
    requires BySelector(job.rules) && WordOf(job.next, r, 0) % 256 >= job.rules.odds
    requires |job.cache| > window == 100000 && s == Skip(job.next, r, 1)
    requires WordOf(job.next, s, n) % 131072 < window
    requires forall i: nat | i < n :: WordOf(job.next, s, i) % 131072 >= window
    ensures var x := |job.cache| - 100000 + WordOf(job.next, s, n) % 131072;
      Pick(job, r) == Some((Skip(job.next, s, n + 1), x)) && |job.cache| - 100000 <= x < |job.cache|
  {
    var b := FitsWindow(window);
    PickFromWindow(job, r, s, window, b, n);
  }

  /** The four picks of a message in order, and the block drawn after the last of them. */
  lemma PlanLaw(job: Job, pick: Rng -> Option<(Rng, nat)>, x: Quad, rs: seq<Rng>)
    requires pick == Picker(job) && |rs| == 5 && forall i | 0 <= i < 4 :: pick(rs[i]) == Some((rs[i + 1], x[i]))
    ensures var g := job.next(rs[4].g); PlanMessage(job, rs[0]) == Some((Rng(g, rs[4].ki), Plan(x, g.ks)))
  {
    PlannedInOrder<Rng, nat>(pick, rs, x);
  }
}
