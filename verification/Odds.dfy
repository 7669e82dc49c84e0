/** How much keystream a pick consumes, and whether the odds change it. */
module Odds {
  import opened Words
  import opened Iteration
  import opened Cipher
  import opened AnyBlock
  import opened Sampler
  import opened Returning
  import opened ChainFill

  /** The selector never exceeds 255, so odds above 256 are all alike. */
  function Capped(odds: nat): nat {
    if odds > 256 then 256 else odds
  }

  /** Picks with either odds, when both return, leave the same generator and cursor. */
  ghost predicate SameCursor(next: Gen -> Gen, a: nat, b: nat, height: Word, r: Rng) {
    var p, q := PickByOdds(next, a, height, r), PickByOdds(next, b, height, r);
    p.Some? && q.Some? ==> p.value.0 == q.value.0
  }

  lemma AcceptedIsFirst(next: Gen -> Gen, r: Rng, max: Word)
    requires Accepts(Peek(next, r), max)
    ensures Draw(next, r, max) == Some((Drop(next, r), Masked(Peek(next, r), max)))
  {
    assert Skip(next, r, 0) == r;
    assert AcceptedAt(next, r, max, 0);
    assert Skip(next, r, 1) == Drop(next, r);
    DrawAt(next, r, max, 0);
  }

  lemma AcceptedIsSecond(next: Gen -> Gen, r: Rng, max: Word)
    requires !Accepts(Peek(next, r), max) && Accepts(Peek(next, Drop(next, r)), max)
    ensures Draw(next, r, max) == Some((Drop(next, Drop(next, r)), Masked(Peek(next, Drop(next, r)), max)))
  {
    assert Skip(next, r, 0) == r;
    assert !AcceptedAt(next, r, max, 0);
    assert Skip(next, r, 1) == Drop(next, r);
    assert AcceptedAt(next, r, max, 1);
    SkipLast(next, r, 1);
    DrawAt(next, r, max, 1);
  }

  lemma SeventeenBits(x: nat)
    requires 65536 <= x < 131072
    ensures Pow2(BitLen(x)) == 131072
  {
    Pow2Of8();
    Pow2Adds(8, 8);
    BitLenIs(x, 17);
  }

  lemma AcceptsByRemainder(w: Word, max: Word)
    ensures Accepts(w, max) <==> w % Range(max) <= Top(max)
    ensures w <= Top(max) ==> Accepts(w, max)
  {
    MaskedIsRemainder(w, max);
    RangeFits(max);
    if w <= Top(max) {
      SmallRemainder(w, Range(max));
    }
  }

  lemma OrOneStays(x: nat)
    requires 65536 <= x < 131071
    ensures 65536 <= OrOne(x) < 131072
  {
  }

  /** A word equal to a bound of this size is kept by the mask and rejected. */
  lemma RejectsItself(w: Word)
    requires 65536 < w < 131072
    ensures !Accepts(w, w)
  {
    AcceptsByRemainder(w, w);
    OrOneStays(w - 1);
    SeventeenBits(OrOne(w - 1));
  }

  /** The word 100000 is too large for the window and small enough for any longer chain. */
  lemma WordBetween(w: Word, height: Word)
    requires 65536 < w < 131072 && height > w
    ensures Accepts(w, height) && !Accepts(w, w) && Accepts(0, w)
  {
    AcceptsByRemainder(w, height);
    RejectsItself(w);
    AcceptsByRemainder(0, w);
  }

  lemma SmallRemainder(x: nat, d: nat)
    requires x < d
    ensures x % d == x
  {
  }

  // ----- the two draws part -----

  lemma SelectorIs(next: Gen -> Gen, r: Rng)
    requires Peek(next, r) < 256
    ensures Draw(next, r, 256) == Some((Drop(next, r), Peek(next, r)))
  {
    var w := Peek(next, r);
    AcceptsByRemainder(w, 256);
    AcceptedIsFirst(next, r, 256);
    MaskedIsRemainder(w, 256);
    RangeFits(256);
    SmallRemainder(w, Range(256));
  }

  /** With a selector between the two odds, then 100000, then 0, a pick over the whole chain
      takes one index word and a pick over the window two. */
  lemma WordsPart(next: Gen -> Gen, low: nat, high: nat, height: Word, r: Rng, s: Rng)
    requires low < high && low < 256 && height > WINDOW && s == Drop(next, r)
    requires Peek(next, r) == low && Peek(next, s) == WINDOW && Peek(next, Drop(next, s)) == 0
    ensures !SameCursor(next, low, high, height, r)
  {
    SelectorIs(next, r);
    WordBetween(WINDOW, height);
    AcceptedIsFirst(next, s, height);
    AcceptedIsSecond(next, s, WINDOW);
  }

  /** A selector, 100000 and 0, and thirteen words more. */
  function Chosen(selector: Word): (w: seq<Word>)
    ensures |w| == 16 && w[0] == selector && w[1] == WINDOW && w[2] == 0
  {
    [selector, WINDOW, 0] + Zeros(13)
  }

  /** A keystream block of those words, with the cursor at its start, as a fill's first pick
      finds it. */
  function Witness(selector: Word): Rng {
    Rng(Showing(Chosen(selector)), 0)
  }

  lemma CursorsPart(next: Gen -> Gen, low: nat, high: nat, height: Word)
    requires low < high && low < 256 && height > WINDOW
    ensures Drawable(Witness(low)) && !SameCursor(next, low, high, height, Witness(low))
  {
    EveryBlockArises(Chosen(low));
    var r := Witness(low);
    assert Drawable(r);
    WordsPart(next, low, high, height, r, Drop(next, r));
  }

  lemma CursorsMeet(next: Gen -> Gen, a: nat, b: nat, height: Word, r: Rng)
    requires height <= WINDOW || Capped(a) == Capped(b)
    ensures SameCursor(next, a, b, height, r)
  {
  }

  /** The odds never change how much keystream a pick consumes, whatever block NextKeys left
      behind, exactly when the window covers the whole chain or the two odds decide every
      selector alike. On a longer chain the two index draws reject different words. */
  lemma OddsKeepCursor(next: Gen -> Gen, a: nat, b: nat, height: Word)
    requires IsNext(next)
    ensures (forall r | Drawable(r) :: SameCursor(next, a, b, height, r))
       <==> height <= WINDOW || Capped(a) == Capped(b)
  {
    if height <= WINDOW || Capped(a) == Capped(b) {
      forall r | Drawable(r) ensures SameCursor(next, a, b, height, r) {
        CursorsMeet(next, a, b, height, r);
      }
    } else if a < b {
      CursorsPart(next, a, b, height);
    } else {
      CursorsPart(next, b, a, height);
      assert !SameCursor(next, a, b, height, Witness(b));
    }
  }
}
