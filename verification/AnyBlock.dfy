/** Every sixteen words are the keystream block of some aligned state. */
module AnyBlock {
  import opened Words
  import opened Iteration
  import opened Cipher
  import opened Blocks
  import opened Reverse
  import opened Orbits

  // ----- runs backwards and forwards -----

  function Unstepper(mode: Mode): Gen -> Gen {
    g => Unstep(mode, g)
  }

  /** A step back and a step forward restore tables and counter. */
  ghost predicate Redoes(f: Gen -> Gen, u: Gen -> Gen) {
    forall x {:trigger u(x)} :: SameTables(f(u(x)), x)
  }

  lemma StepRedoes(mode: Mode)
    ensures Redoes(Stepper(mode), Unstepper(mode))
  {
    var f, u := Stepper(mode), Unstepper(mode);
    forall x: Gen ensures SameTables(f(u(x)), x) {
      StepRedone(mode, x);
    }
  }

  // ----- keystream beside an all-zero table -----

  lemma XorWZero(x: Word)
    ensures XorW(0, x) == x
  {
    XorCommutes(0, x);
    XorZero(x);
  }

  predicate AllZero(t: seq<Word>) {
    forall i | 0 <= i < |t| :: t[i] == 0
  }

  /** The other table is zero, and the first n buffered words are the n cells from j on. */
  predicate Shows(l: Lane, j: int, n: nat) {
    l.Ok() && AllZero(l.other) && 0 <= j && j + n <= 512 && n <= 16 && forall i | 0 <= i < n :: l.ks[i] == l.own[j + i]
  }

  lemma CellShows(half: Half, l: Lane, j: int, n: nat)
    requires Shows(l, j, n) && j % 16 == 0 && n < 16 && j + n < 512
    ensures Shows(KeyCell(half, l, j + n), j, n + 1)
  {
    var r := KeyCell(half, l, j + n);
    SlotIs(j, n);
    assert Tap(r.own, l.other, j + n) == 0;
    XorWZero(r.own[j + n]);
  }

  /** Beside an all-zero table the keystream is the updated cells themselves. */
  lemma {:induction false} CellsShow(half: Half, l: Lane, j: int, n: nat)
    requires Shows(l, j, 0) && j % 16 == 0 && n <= 16 && j + n <= 512
    ensures Shows(Cells(Key, half, l, j, n), j, n)
    decreases n
  {
    if n > 0 {
      CellsShow(half, l, j, n - 1);
      CellShows(half, Cells(Key, half, l, j, n - 1), j, n - 1);
    }
  }

  lemma {:induction false} CellsKeepOther(half: Half, l: Lane, j: int, n: nat)
    requires l.Ok() && 0 <= j && j + n <= 512
    ensures Cells(Key, half, l, j, n).other == l.other
    decreases n
  {
    if n > 0 {
      CellsKeepOther(half, l, j, n - 1);
    }
  }

  /** A state with table P zero that has just drawn the block at the end of Q. */
  predicate Plain(g: Gen) {
    AllZero(g.p) && forall i | 0 <= i < 16 :: g.ks[i] == g.q[496 + i]
  }

  lemma LastBlockIsPlain(h: Gen, n: nat)
    requires h.counter == 1008 && n == 16 && AllZero(BlockRun(Key, h, n).p)
    ensures Plain(BlockRun(Key, h, n))
  {
    CellsKeepOther(OnQ, LaneOf(h), 496, n);
    CellsShow(OnQ, LaneOf(h), 496, n);
  }

  lemma PlainStatesAgree(a: Gen, b: Gen)
    requires Plain(a) && Plain(b) && SameTables(a, b)
    ensures a == b
  {
    assert a.ks == b.ks;
  }

  // ----- the theorem -----

  /** Counter 0, table P zero, and w both in the buffer and at the end of Q. */
  function Showing(w: seq<Word>): Gen
    requires |w| == 16
  {
    Snapshot(Zeros(512), Zeros(496) + w, w, 0)
  }

  lemma CounterBefore(f: Gen -> Gen, h: Gen, g: Gen, n: nat)
    requires Ticks(f) && n == 16 && SameTables(Iterate(f, h, n), g) && g.counter == 0
    ensures h.counter == 1008
  {
    CounterAfter(f, h, n);
  }

  lemma PlainArises(f: Gen -> Gen, u: Gen -> Gen, g: Gen, h: Gen, n: nat)
    requires Names(f, Key) && Respects(f) && Ticks(f) && Redoes(f, u)
    requires Plain(g) && g.counter == 0 && n == 16 && h == Iterate(u, g, n)
    ensures h.counter == 1008 && Iterate(f, h, n) == g
  {
    RunRedone(f, u, SameTables, g, n);
    CounterBefore(f, h, g, n);
    BlockIsSteps(Key, f, h, n);
    LastBlockIsPlain(h, n);
    PlainStatesAgree(BlockRun(Key, h, n), g);
  }

  /** NextKeys can leave any sixteen words in the buffer. */
  lemma EveryBlockArises(w: seq<Word>)
    requires |w| == 16
    ensures exists h: Gen :: h.counter % 16 == 0 && Showing(w) == NextKeys(h)
  {
    var n: nat := 16;
    var h := Iterate(Unstepper(Key), Showing(w), n);
    StepRespects(Key);
    StepTicks(Key);
    StepRedoes(Key);
    PlainArises(Stepper(Key), Unstepper(Key), Showing(w), h, n);
    assert Showing(w) == NextKeys(h);
  }
}
