/** Sixteen reference steps from an aligned counter, seen as work on one table. */
module Blocks {
  import opened Words
  import opened Iteration
  import opened Cipher

  /** The order the code adds and xors in, against the order of g1 and g2. */
  lemma FeedIsG(half: Half, x: Word, y: Word, z: Word)
    ensures Add(Rot(half, y, 8), XorW(Rot(half, z, 23), Rot(half, x, 10))) == G(half, x, y, z)
  {
    XorCommutes(Rot(half, z, 23), Rot(half, x, 10));
  }

  lemma RoomInTable(c: nat, n: nat)
    requires c < 1024 && c % 16 == 0 && n < 16
    ensures c < 512 ==> c + n < 512
    ensures c + n < 1024 && Index(c) + n < 512 && Index(c + n) == Index(c) + n
  {
  }

  lemma StepOnLane(mode: Mode, g: Gen, l: Lane, n: nat)
    requires l.Ok() && g.counter % 16 == 0 && n < 16
    ensures g.counter + n < 1024 && Index(g.counter) + n < 512
    ensures Step(mode, WithLane(g, l, g.counter + n))
         == WithLane(g, Cell(mode, HalfOf(g), l, Index(g.counter) + n), Tick(g.counter + n))
  {
    RoomInTable(g.counter, n);
    var r := WithLane(g, l, g.counter + n);
    assert LaneOf(r) == l && HalfOf(r) == HalfOf(g);
  }

  /** Where sixteen steps from an aligned counter leave the counter. */
  function After(c: nat, n: nat): nat
    requires c < 1024 && c % 16 == 0 && n <= 16
  {
    if c + n == 1024 then 0 else c + n
  }

  lemma BlockCounters(c: nat)
    requires c < 1024 && c % 16 == 0
    ensures c % 512 == Index(c) <= 496 && Index(c) % 16 == 0
    ensures (c + 16) % 1024 == After(c, 16) < 1024 && After(c, 16) % 16 == 0
  {
  }

  /** n steps on one table from an aligned counter. */
  function BlockRun(mode: Mode, g: Gen, n: nat): Gen
    requires g.counter % 16 == 0 && n <= 16
  {
    RoomInTable(g.counter, if n == 0 then 0 else n - 1);
    WithLane(g, Cells(mode, HalfOf(g), LaneOf(g), Index(g.counter), n), After(g.counter, n))
  }

  lemma BlockRunGrows(mode: Mode, g: Gen, n: nat)
    requires g.counter % 16 == 0 && n < 16
    ensures BlockRun(mode, g, n + 1) == Step(mode, BlockRun(mode, g, n))
  {
    RoomInTable(g.counter, n);
    StepOnLane(mode, g, Cells(mode, HalfOf(g), LaneOf(g), Index(g.counter), n), n);
  }

  /** f is a name for the reference step, unfolded only where a step is mentioned. */
  ghost predicate Names(f: Gen -> Gen, mode: Mode) {
    forall x: Gen {:trigger Step(mode, x)} :: f(x) == Step(mode, x)
  }

  /** Sixteen steps of the reference algorithm from an aligned counter stay on one table. */
  lemma {:induction false} BlockIsSteps(mode: Mode, f: Gen -> Gen, g: Gen, n: nat)
    requires g.counter % 16 == 0 && n <= 16
    requires Names(f, mode)
    ensures Iterate(f, g, n) == BlockRun(mode, g, n)
  {
    if n > 0 {
      BlockIsSteps(mode, f, g, n - 1);
      IterateLast(f, g, n - 1);
      BlockRunGrows(mode, g, n - 1);
    }
  }
}
