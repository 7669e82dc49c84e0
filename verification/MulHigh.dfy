/** The rejection-free draw: the high half of word times height. */
module MulHigh {
  import opened Words

  function High(w: Word, height: nat): nat {
    w * height / WORD
  }

  lemma MulMonotone(a: int, b: int, h: nat)
    requires a <= b
    ensures a * h <= b * h
  {
  }

  lemma HighIsBelow(w: Word, height: nat)
    requires height > 0
    ensures High(w, height) < height
  {
    MulMonotone(w, WORD - 1, height);
    DivBelow(w * height, height);
  }

  lemma DivBelow(x: nat, h: nat)
    requires x < WORD * h
    ensures x / WORD < h
  {
  }

  /** The words the draw turns into r. */
  ghost function HighPreimages(height: nat, r: nat): set<int> {
    set w: int | 0 <= w < WORD && High(w, height) == r
  }

  ghost predicate Between(lo: int, w: int, hi: int) {
    lo <= w < hi
  }

  ghost function Interval(lo: int, hi: int): set<int> {
    set w: int | lo <= w < hi && Between(lo, w, hi)
  }

  lemma {:induction false} CountInterval(lo: int, hi: int)
    requires lo <= hi
    ensures |Interval(lo, hi)| == hi - lo
    decreases hi - lo
  {
    if lo == hi {
      assert Interval(lo, hi) == {};
    } else {
      CountInterval(lo, hi - 1);
      assert forall w :: Between(lo, w, hi) <==> Between(lo, w, hi - 1) || w == hi - 1;
      assert Interval(lo, hi) == Interval(lo, hi - 1) + {hi - 1};
    }
  }

  /** The least w with w * h >= x. */
  function Ceil(x: nat, h: nat): (c: nat)
    requires h > 0
    ensures x <= c * h < x + h
  {
    var c := (x + h - 1) / h;
    assert c * h == x + h - 1 - (x + h - 1) % h;
    c
  }

  lemma LeastAbove(x: nat, h: nat, w: nat, c: nat)
    requires h > 0 && x <= c * h < x + h
    ensures w * h >= x <==> w >= c
  {
    if w >= c {
      MulMonotone(c, w, h);
    } else {
      MulMonotone(w, c - 1, h);
      Distribute(c, 1, h);
    }
  }

  lemma CeilIsLeast(x: nat, h: nat, w: nat)
    requires h > 0
    ensures w * h >= x <==> w >= Ceil(x, h)
  {
    LeastAbove(x, h, w, Ceil(x, h));
  }

  lemma HighIs(w: Word, h: nat, r: nat)
    ensures High(w, h) == r <==> r * WORD <= w * h < (r + 1) * WORD
  {
  }

  /** The words giving r are an interval. */
  lemma HighPreimagesAreInterval(h: nat, r: nat)
    requires r < h
    ensures HighPreimages(h, r) == Interval(Ceil(r * WORD, h), Ceil((r + 1) * WORD, h))
  {
    var lo, hi := Ceil(r * WORD, h), Ceil((r + 1) * WORD, h);
    assert (r + 1) * WORD <= WORD * h;
    CeilIsLeast((r + 1) * WORD, h, WORD);
    forall w: int | 0 <= w < WORD ensures High(w, h) == r <==> lo <= w < hi {
      HighIs(w, h, r);
      CeilIsLeast(r * WORD, h, w);
      CeilIsLeast((r + 1) * WORD, h, w);
    }
    assert forall w :: w in Interval(lo, hi) <==> Between(lo, w, hi);
  }

  /** Any two indices below height are hit by word counts that differ by at most one. */
  lemma HighIsBalanced(h: nat, r: nat)
    requires r < h
    ensures WORD / h <= |HighPreimages(h, r)| <= WORD / h + 1
  {
    var lo, hi := Ceil(r * WORD, h), Ceil((r + 1) * WORD, h);
    HighPreimagesAreInterval(h, r);
    GapWithinOne(h, lo, hi, r * WORD);
    CountInterval(lo, hi);
  }

  lemma GapWithinOne(h: nat, lo: nat, hi: nat, x: nat)
    requires h > 0 && x <= lo * h < x + h && x + WORD <= hi * h < x + WORD + h
    ensures lo <= hi && WORD / h <= hi - lo <= WORD / h + 1
  {
    var q, d := WORD / h, hi - lo;
    Distribute(hi, lo, h);
    DivisionBounds(WORD, h);
    MulMonotone(if d < q then d else q - 1, q - 1, h);
    MulMonotone(q + 2, if d > q + 1 then d else q + 2, h);
    Distribute(q, 1, h);
    Distribute(q + 2, q, h);
  }

  lemma Distribute(a: int, b: int, h: nat)
    ensures (a - b) * h == a * h - b * h
  {
  }

  lemma DivisionBounds(x: nat, h: nat)
    requires h > 0
    ensures x / h * h <= x < x / h * h + h
  {
  }
}
