/** HC-128 run backwards: every step undoes, so no two states ever merge. */
module Reverse {
  import opened Words
  import opened Iteration
  import opened Cipher

  /** Equal tables and counter; the keystream buffer is an output, not state. */
  predicate SameTables(a: Gen, b: Gen) {
    a.p == b.p && a.q == b.q && a.counter == b.counter
  }

  /** The cell value before step j, from the table after it. */
  function Unfed(mode: Mode, half: Half, own: seq<Word>, other: seq<Word>, j: int): Word
    requires |own| == |other| == 512 && 0 <= j < 512
  {
    var fed := if mode.Key? then own[j] else XorW(own[j], Tap(own, other, j));
    Sub(fed, G(half, own[Back(j, 3)], own[Back(j, 10)], own[Back(j, 511)]))
  }

  function UnCell(mode: Mode, half: Half, lane: Lane, j: int): (r: Lane)
    requires lane.Ok() && 0 <= j < 512
    ensures r.Ok()
  {
    lane.(own := lane.own[j := Unfed(mode, half, lane.own, lane.other, j)])
  }

  function Unstep(mode: Mode, g: Gen): Gen {
    var c := if g.counter == 0 then 1023 else g.counter - 1;
    var h: Gen := g.(counter := c);
    WithLane(h, UnCell(mode, HalfOf(h), LaneOf(h), Index(c)), c)
  }

  lemma XorWCommutes(x: Word, y: Word)
    ensures XorW(x, y) == XorW(y, x)
  {
    XorCommutes(x, y);
  }

  lemma CellUndone(mode: Mode, half: Half, lane: Lane, j: int)
    requires lane.Ok() && 0 <= j < 512
    ensures var after := Cell(mode, half, lane, j); UnCell(mode, half, after, j).own == lane.own
  {
    var after := Cell(mode, half, lane, j);
    var fed, tap := Fed(half, lane.own, j), Tap(lane.own, lane.other, j);
    XorWCommutes(tap, fed);
    XorWCancels(fed, tap);
    assert Unfed(mode, half, after.own, lane.other, j) == lane.own[j];
  }

  lemma CellRedone(mode: Mode, half: Half, lane: Lane, j: int)
    requires lane.Ok() && 0 <= j < 512
    ensures Cell(mode, half, UnCell(mode, half, lane, j), j).own == lane.own
  {
    var before := UnCell(mode, half, lane, j);
    var tap := Tap(lane.own, lane.other, j);
    XorWCancels(lane.own[j], tap);
    XorWCommutes(XorW(lane.own[j], tap), tap);
    var cell := if mode.Key? then Fed(half, before.own, j) else XorW(tap, Fed(half, before.own, j));
    assert cell == lane.own[j];
  }

  /** One step, forward then backward, restores tables and counter. */
  lemma StepUndone(mode: Mode, g: Gen)
    ensures SameTables(Unstep(mode, Step(mode, g)), g)
  {
    CellUndone(mode, HalfOf(g), LaneOf(g), Index(g.counter));
  }

  /** One step, backward then forward, restores tables and counter. */
  lemma StepRedone(mode: Mode, g: Gen)
    ensures SameTables(Step(mode, Unstep(mode, g)), g)
  {
    var b := Unstep(mode, g);
    CellRedone(mode, HalfOf(b), LaneOf(g.(counter := b.counter)), Index(b.counter));
  }

  lemma UnstepReadsTables(mode: Mode, a: Gen, b: Gen)
    requires SameTables(a, b)
    ensures SameTables(Unstep(mode, a), Unstep(mode, b))
  {
  }

  lemma StepNeverMerges(mode: Mode, a: Gen, b: Gen)
    requires SameTables(Step(mode, a), Step(mode, b))
    ensures SameTables(a, b)
  {
    StepUndone(mode, a);
    StepUndone(mode, b);
    UnstepReadsTables(mode, Step(mode, a), Step(mode, b));
  }

  lemma StepSeparates(mode: Mode)
    ensures Separates(Stepper(mode), SameTables)
  {
    forall a: Gen, b: Gen | SameTables(Stepper(mode)(a), Stepper(mode)(b))
      ensures SameTables(a, b)
    {
      StepNeverMerges(mode, a, b);
    }
  }

  /** Two runs of the same length that end in the same tables began in the same tables. */
  lemma RunsNeverMerge(mode: Mode, a: Gen, b: Gen, n: nat)
    requires SameTables(Iterate(Stepper(mode), a, n), Iterate(Stepper(mode), b, n))
    ensures SameTables(a, b)
  {
    StepSeparates(mode);
    OrbitsNeverMerge(Stepper(mode), SameTables, a, b, n);
  }

  /** A run that ever repeats a state repeats its first one. */
  lemma RunsHaveNoTail(mode: Mode, g: Gen, i: nat, n: nat)
    requires SameTables(Iterate(Stepper(mode), g, i), Iterate(Stepper(mode), g, n + i))
    ensures SameTables(g, Iterate(Stepper(mode), g, n))
  {
    StepSeparates(mode);
    OrbitHasNoTail(Stepper(mode), SameTables, g, i, n);
  }

  // ----- the expansion run backwards -----

  /** W[i - 16] from W[i - 15 .. i]. */
  function PrevW(w: seq<Word>): Word
    requires 17 <= |w| <= WORD
  {
    var i := |w| - 1;
    Sub(Sub(w[i], i), Add(Add(F2(w[i - 2]), w[i - 7]), F1(w[i - 15])))
  }

  lemma PrevWIsLost(w: seq<Word>)
    requires 16 <= |w| < WORD
    ensures PrevW(w + [NextW(w)]) == w[|w| - 16]
  {
    var x := w + [NextW(w)];
    var i := |w|;
    assert x[i - 2] == w[i - 2] && x[i - 7] == w[i - 7] && x[i - 15] == w[i - 15];
  }

  /** The last sixteen words of the expansion so far. */
  function Tail(w: seq<Word>): (t: seq<Word>)
    requires |w| >= 16
    ensures |t| == 16 && forall k | 0 <= k < 16 :: t[k] == w[|w| - 16 + k]
  {
    w[|w| - 16..]
  }

  lemma GrownTails(a: seq<Word>, b: seq<Word>)
    requires 16 <= |a| == |b| < WORD
    requires Tail(a + [NextW(a)]) == Tail(b + [NextW(b)])
    ensures Tail(a) == Tail(b)
  {
    var i := |a|;
    var x, y := a + [NextW(a)], b + [NextW(b)];
    var s, t := Tail(x), Tail(y);
    assert x[i - 2] == s[13] && x[i - 7] == s[8] && x[i - 15] == s[0] && x[i] == s[15];
    assert y[i - 2] == t[13] && y[i - 7] == t[8] && y[i - 15] == t[0] && y[i] == t[15];
    PrevWIsLost(a);
    PrevWIsLost(b);
    assert a[i - 16] == b[i - 16];
    forall k | 0 <= k < 16 ensures Tail(a)[k] == Tail(b)[k] {
      if k > 0 {
        assert a[i - 16 + k] == x[i - 16 + k] == s[k - 1];
        assert b[i - 16 + k] == y[i - 16 + k] == t[k - 1];
      }
    }
  }

  /** Sixteen consecutive words of the expansion determine the seed. */
  lemma {:induction false} ExpandNeverMerges(a: seq<Word>, b: seq<Word>, n: nat)
    requires 16 <= |a| == |b| && |a| + n <= WORD
    requires Tail(Expand(a, n)) == Tail(Expand(b, n))
    ensures Tail(a) == Tail(b)
    decreases n
  {
    if n > 0 {
      ExpandNeverMerges(a + [NextW(a)], b + [NextW(b)], n - 1);
      GrownTails(a, b);
    }
  }

  lemma LowDigit(x: Byte, y: Byte, h: nat, k: nat)
    requires x + 0x100 * h == y + 0x100 * k
    ensures x == y && h == k
  {
  }

  lemma Le32Injective(a: seq<Byte>, b: seq<Byte>, at: nat)
    requires at + 4 <= |a| && at + 4 <= |b| && Le32(a, at) == Le32(b, at)
    ensures forall k | at <= k < at + 4 :: a[k] == b[k]
  {
    var a1: int, a2: int, a3: int := a[at + 1], a[at + 2], a[at + 3];
    var b1: int, b2: int, b3: int := b[at + 1], b[at + 2], b[at + 3];
    LowDigit(a[at], b[at], a1 + 0x100 * a2 + 0x1_0000 * a3, b1 + 0x100 * b2 + 0x1_0000 * b3);
    LowDigit(a[at + 1], b[at + 1], a2 + 0x100 * a3, b2 + 0x100 * b3);
    LowDigit(a[at + 2], b[at + 2], a3, b3);
  }

  lemma SeedInjective(k1: seq<Byte>, v1: seq<Byte>, k2: seq<Byte>, v2: seq<Byte>)
    requires |k1| == |v1| == |k2| == |v2| == 16 && Seed(k1, v1) == Seed(k2, v2)
    ensures k1 == k2 && v1 == v2
  {
    var s, t := Seed(k1, v1), Seed(k2, v2);
    assert s[0] == t[0] && s[1] == t[1] && s[2] == t[2] && s[3] == t[3];
    assert s[8] == t[8] && s[9] == t[9] && s[10] == t[10] && s[11] == t[11];
    WordsDetermineBytes(k1, k2);
    WordsDetermineBytes(v1, v2);
  }

  lemma WordsDetermineBytes(a: seq<Byte>, b: seq<Byte>)
    requires |a| == |b| == 16
    requires Le32(a, 0) == Le32(b, 0) && Le32(a, 4) == Le32(b, 4)
    requires Le32(a, 8) == Le32(b, 8) && Le32(a, 12) == Le32(b, 12)
    ensures a == b
  {
    Le32Injective(a, b, 0);
    Le32Injective(a, b, 4);
    Le32Injective(a, b, 8);
    Le32Injective(a, b, 12);
  }

  /** Distinct (key, IV) pairs give distinct tables after HC128_Init, whatever the
      keystream buffers held. */
  lemma InitInjective(k1: seq<Byte>, v1: seq<Byte>, ks1: seq<Word>,
                      k2: seq<Byte>, v2: seq<Byte>, ks2: seq<Word>)
    requires |k1| == |v1| == |k2| == |v2| == 16 && |ks1| == |ks2| == 16
    requires SameTables(Init(k1, v1, ks1), Init(k2, v2, ks2))
    ensures k1 == k2 && v1 == v2
  {
    RunsNeverMerge(Warm, Loaded(k1, v1, ks1), Loaded(k2, v2, ks2), 1024);
    LoadedInjective(k1, v1, ks1, k2, v2, ks2);
  }

  lemma LoadedInjective(k1: seq<Byte>, v1: seq<Byte>, ks1: seq<Word>,
                        k2: seq<Byte>, v2: seq<Byte>, ks2: seq<Word>)
    requires |k1| == |v1| == |k2| == |v2| == 16 && |ks1| == |ks2| == 16
    requires Loaded(k1, v1, ks1).q == Loaded(k2, v2, ks2).q
    ensures k1 == k2 && v1 == v2
  {
    var s, t := Seed(k1, v1), Seed(k2, v2);
    var x, y := Expand(s, 1264), Expand(t, 1264);
    assert Tail(x) == x[768..1280][496..] && Tail(y) == y[768..1280][496..];
    ExpandNeverMerges(s, t, 1264);
    assert Tail(s) == s && Tail(t) == t;
    SeedInjective(k1, v1, k2, v2);
  }

  /** Differently seeded generators are in different states after equally many steps, however
      many. */
  lemma SeedsNeverMeet(k1: seq<Byte>, v1: seq<Byte>, ks1: seq<Word>,
                       k2: seq<Byte>, v2: seq<Byte>, ks2: seq<Word>, n: nat)
    requires |k1| == |v1| == |k2| == |v2| == 16 && |ks1| == |ks2| == 16
    requires k1 != k2 || v1 != v2
    ensures !SameTables(Iterate(Stepper(Key), Init(k1, v1, ks1), n), Iterate(Stepper(Key), Init(k2, v2, ks2), n))
  {
    var a, b := Init(k1, v1, ks1), Init(k2, v2, ks2);
    if SameTables(Iterate(Stepper(Key), a, n), Iterate(Stepper(Key), b, n)) {
      RunsNeverMerge(Key, a, b, n);
      InitInjective(k1, v1, ks1, k2, v2, ks2);
    }
  }
}
