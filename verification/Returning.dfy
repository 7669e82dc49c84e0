/** When a draw returns: the words it can meet come round, so one turn of them decides. */
module Returning {
  import opened Words
  import opened Iteration
  import opened Cipher
  import opened Orbits
  import opened Sampler

  /** A cursor as a pick finds it: into a block that NextKeys left behind. */
  ghost predicate Drawable(r: Rng) {
    r.ki <= 16 && exists h: Gen :: h.counter % 16 == 0 && r.g == NextKeys(h)
  }

  // ----- the first accepted word -----

  lemma {:induction false} FirstExists(next: Gen -> Gen, r: Rng, max: Word, n: nat)
    requires AcceptedAt(next, r, max, n)
    ensures exists m :: FirstAccepted(next, r, max, m)
    decreases n
  {
    if i: nat :| i < n && AcceptedAt(next, r, max, i) {
      FirstExists(next, r, max, i);
    } else {
      assert FirstAccepted(next, r, max, n);
    }
  }

  /** A draw fails to return exactly when every word from the cursor on is rejected. */
  lemma NoneMeansRejected(next: Gen -> Gen, r: Rng, max: Word)
    ensures Draw(next, r, max).None? <==> forall n: nat :: !AcceptedAt(next, r, max, n)
  {
    if n: nat :| AcceptedAt(next, r, max, n) {
      FirstExists(next, r, max, n);
    }
  }

  // ----- cursors come round -----

  lemma {:induction false} SkipAdd(next: Gen -> Gen, r: Rng, m: nat, n: nat)
    ensures Skip(next, r, m + n) == Skip(next, Skip(next, r, m), n)
    decreases m
  {
    if m > 0 {
      SkipAdd(next, Drop(next, r), m - 1, n);
    }
  }

  lemma {:induction false} SkipInBuffer(next: Gen -> Gen, g: Gen, k: nat, n: nat)
    requires k + n <= 16
    ensures Skip(next, Rng(g, k), n) == Rng(g, k + n)
    decreases n
  {
    if n > 0 {
      SkipInBuffer(next, g, k + 1, n - 1);
    }
  }

  lemma SkipBlock(next: Gen -> Gen, g: Gen, k: nat)
    requires 1 <= k <= 16
    ensures Skip(next, Rng(g, k), 16) == Rng(next(g), k)
  {
    SkipInBuffer(next, g, k, 16 - k);
    SkipInBuffer(next, next(g), 1, k - 1);
    assert Drop(next, Rng(g, 16)) == Rng(next(g), 1);
    assert Skip(next, Rng(g, 16), k) == Skip(next, Rng(next(g), 1), k - 1);
    SkipAdd(next, Rng(g, k), 16 - k, k);
  }

  lemma {:induction false} SkipBlocks(next: Gen -> Gen, g: Gen, k: nat, n: nat)
    requires 1 <= k <= 16
    ensures Skip(next, Rng(g, k), 16 * n) == Rng(Iterate(next, g, n), k)
    decreases n
  {
    if n > 0 {
      SkipBlock(next, g, k);
      SkipAdd(next, Rng(g, k), 16, 16 * (n - 1));
      SkipBlocks(next, next(g), k, n - 1);
    }
  }

  /** The cursor n blocks on is the cursor itself. */
  ghost predicate Turns(next: Gen -> Gen, r: Rng, n: nat) {
    n > 0 && Skip(next, r, 16 * n) == r
  }

  lemma {:induction false} OneTurnDecides(next: Gen -> Gen, r: Rng, max: Word, n: nat, i: nat)
    requires Turns(next, r, n) && forall k: nat | k < 16 * n :: !AcceptedAt(next, r, max, k)
    ensures !AcceptedAt(next, r, max, i)
    decreases i
  {
    if i >= 16 * n {
      OneTurnDecides(next, r, max, n, i - 16 * n);
      SkipAdd(next, r, 16 * n, i - 16 * n);
    }
  }

  /** A cursor at the end of one block reads what the start of the next block reads. */
  lemma EndIsStart(next: Gen -> Gen, g: Gen, max: Word, i: nat)
    ensures AcceptedAt(next, Rng(g, 16), max, i) == AcceptedAt(next, Rng(next(g), 0), max, i)
  {
  }

  /** Every word of the next n blocks is rejected. */
  ghost predicate RejectsTurn(next: Gen -> Gen, r: Rng, max: Word, n: nat) {
    forall i: nat | i < 16 * n :: !AcceptedAt(next, r, max, i)
  }

  lemma TurnDecides(next: Gen -> Gen, r: Rng, max: Word, n: nat)
    requires n > 0 && r.ki <= 16 && Iterate(next, r.g, n) == r.g
    ensures Draw(next, r, max).None? <==> RejectsTurn(next, r, max, n)
  {
    NoneMeansRejected(next, r, max);
    if RejectsTurn(next, r, max, n) {
      forall i: nat ensures !AcceptedAt(next, r, max, i) {
        if r.ki > 0 {
          SkipBlocks(next, r.g, r.ki, n);
          OneTurnDecides(next, r, max, n, i);
        } else {
          StartDecides(next, r.g, max, n, i);
        }
      }
    }
  }

  lemma StartDecides(next: Gen -> Gen, g: Gen, max: Word, n: nat, i: nat)
    requires n > 0 && Iterate(next, g, n) == g && RejectsTurn(next, Rng(g, 0), max, n)
    ensures !AcceptedAt(next, Rng(g, 0), max, i)
  {
    var h := Iterate(next, g, n - 1);
    IterateLast(next, g, n - 1);
    IterateAdd(next, g, n - 1, 1);
    assert next(h) == g;
    assert Iterate(next, h, n) == h by {
      assert Iterate(next, h, n) == Iterate(next, next(h), n - 1);
    }
    SkipBlocks(next, h, 16, n);
    forall k: nat | k < 16 * n ensures !AcceptedAt(next, Rng(h, 16), max, k) {
      EndIsStart(next, h, max, k);
    }
    OneTurnDecides(next, Rng(h, 16), max, n, i);
    EndIsStart(next, h, max, i);
  }

  /** HC128_U32 never returns exactly when one full turn of the keystream, from the cursor to
      the cursor again, holds no acceptable word; a draw that returns does so within it. */
  lemma DrawReturnsWithinTurn(next: Gen -> Gen, r: Rng, max: Word)
    requires IsNext(next) && Drawable(r)
    ensures exists n: nat :: n > 0 && Iterate(next, r.g, n) == r.g
              && (Draw(next, r, max).None? <==> RejectsTurn(next, r, max, n))
  {
    var h: Gen :| h.counter % 16 == 0 && r.g == NextKeys(h);
    BlocksComeRound(h);
    var n: nat :| n > 0 && Iterate<Gen>(NextKeys, NextKeys(h), n) == NextKeys(h);
    SameIterates(next, NextKeys, r.g, n);
    TurnDecides(next, r, max, n);
  }

  lemma {:induction false} SameIterates(f: Gen -> Gen, h: Gen -> Gen, x: Gen, n: nat)
    requires forall y :: f(y) == h(y)
    ensures Iterate(f, x, n) == Iterate(h, x, n)
    decreases n
  {
    if n > 0 {
      SameIterates(f, h, f(x), n - 1);
    }
  }

  // ----- words in order -----

  lemma IntoNextBlock(next: Gen -> Gen, h: Gen, t: nat)
    requires t < 16
    ensures Peek(next, Skip(next, Rng(h, 16), t)) == next(h).ks[t]
  {
    if t > 0 {
      assert Drop(next, Rng(h, 16)) == Rng(next(h), 1);
      SkipInBuffer(next, next(h), 1, t - 1);
    }
  }

  /** Word i from cursor k of a block is word (k + i) mod 16 of the (k + i) / 16-th block on. */
  lemma WordFromCursor(next: Gen -> Gen, g: Gen, k: nat, i: nat)
    requires k < 16
    ensures Peek(next, Skip(next, Rng(g, k), i)) == Iterate<Gen>(next, g, (k + i) / 16).ks[(k + i) % 16]
  {
    var n, t := (k + i) / 16, (k + i) % 16;
    if n == 0 {
      SkipInBuffer(next, g, k, i);
    } else {
      WordInBlock(next, g, k, n - 1, t, i);
    }
  }

  lemma WordInBlock(next: Gen -> Gen, g: Gen, k: nat, m: nat, t: nat, i: nat)
    requires k < 16 && t < 16 && i == 16 - k + 16 * m + t
    ensures Peek(next, Skip(next, Rng(g, k), i)) == Iterate<Gen>(next, g, m + 1).ks[t]
  {
    var h: Gen := Iterate<Gen>(next, g, m);
    SkipInBuffer(next, g, k, 16 - k);
    SkipBlocks(next, g, 16, m);
    SkipAdd(next, Rng(g, k), 16 - k, 16 * m);
    SkipAdd(next, Rng(g, k), 16 - k + 16 * m, t);
    IntoNextBlock(next, h, t);
    IterateLast<Gen>(next, g, m);
  }
}
