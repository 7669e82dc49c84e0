/** Long-run behaviour of the generator: the tables alone decide the future, every run is a
    cycle, and the keystream buffer a state starts with never shows. */
module Orbits {
  import opened Words
  import opened Iteration
  import opened Rho
  import opened Cipher
  import opened Blocks
  import opened Reverse
  import opened Stream

  // ----- tables decide tables -----

  lemma StepReadsTables(mode: Mode, a: Gen, b: Gen)
    requires SameTables(a, b)
    ensures SameTables(Step(mode, a), Step(mode, b))
  {
  }

  /** f takes states with the same tables to states with the same tables. */
  ghost predicate Respects(f: Gen -> Gen) {
    forall a, b {:trigger f(a), f(b)} :: SameTables(a, b) ==> SameTables(f(a), f(b))
  }

  /** Two maps that agree on tables keep agreeing on tables. */
  lemma {:induction false} RunsStayTogether(f: Gen -> Gen, h: Gen -> Gen, a: Gen, b: Gen, n: nat)
    requires Respects(f) && SameTables(a, b) && forall x :: SameTables(f(x), h(x))
    ensures SameTables(Iterate(f, a, n), Iterate(h, b, n))
    decreases n
  {
    if n > 0 {
      RunsStayTogether(f, h, f(a), h(b), n - 1);
    }
  }

  lemma StepRespects(mode: Mode)
    ensures Respects(Stepper(mode))
  {
    var f := Stepper(mode);
    forall a: Gen, b: Gen | SameTables(a, b) ensures SameTables(f(a), f(b)) {
      StepReadsTables(mode, a, b);
    }
  }

  // ----- the counter -----

  ghost predicate Ticks(f: Gen -> Gen) {
    forall x :: f(x).counter == Tick(x.counter)
  }

  lemma {:induction false} CounterAfter(f: Gen -> Gen, g: Gen, n: nat)
    requires Ticks(f)
    ensures Iterate<Gen>(f, g, n).counter == (g.counter + n) % 1024
    decreases n
  {
    if n > 0 {
      CounterAfter(f, f(g), n - 1);
      CounterTicks(g.counter, n);
    }
  }

  lemma CounterTicks(c: nat, n: nat)
    requires c < 1024 && n > 0
    ensures (Tick(c) + n - 1) % 1024 == (c + n) % 1024
  {
    if c == 1023 {
      assert c + n == 1024 + (n - 1);
    }
  }

  lemma StepTicks(mode: Mode)
    ensures Ticks(Stepper(mode))
  {
  }

  // ----- every run is a cycle -----

  /** A state with its keystream buffer blanked. */
  function Strip(g: Gen): Gen {
    g.(ks := Zeros(16))
  }

  ghost function AllWords(): set<Word> {
    set w: Word | 0 <= w < WORD && InWords(w)
  }

  predicate InWords(w: Word) {
    true
  }

  ghost function Tables(words: set<Word>, n: nat): set<seq<Word>>
    decreases n, words
  {
    if n == 0 then {[]} else set t, w | t in Tables(words, n - 1) && w in words :: t + [w]
  }

  lemma {:induction false} InTables(words: set<Word>, t: seq<Word>, n: nat)
    requires |t| == n && forall w: Word :: w in words
    ensures t in Tables(words, n)
    decreases n
  {
    if n > 0 {
      InTables(words, t[..n - 1], n - 1);
      assert t == t[..n - 1] + [t[n - 1]];
    }
  }

  /** All stripped states: finitely many. */
  ghost function AllStripped(tables: set<seq<Word>>): set<Gen> {
    set p, q, c: nat | p in tables && q in tables && c < 1024 && |p| == 512 && |q| == 512 :: Blanked(p, q, c)
  }

  function Blanked(p: seq<Word>, q: seq<Word>, c: nat): Gen
    requires |p| == 512 && |q| == 512 && c < 1024
  {
    Snapshot(p, q, Zeros(16), c)
  }

  lemma InAllStripped(g: Gen, tables: set<seq<Word>>)
    requires forall t: seq<Word> :: |t| == 512 ==> t in tables
    ensures Strip(g) in AllStripped(tables)
  {
    assert Strip(g) == Blanked(g.p, g.q, g.counter);
  }

  lemma StrippedReturns(f: Gen -> Gen, x: Gen, domain: set<Gen>) returns (n: nat)
    requires Separates(f, SameTables) && Closed(f, domain) && x in domain
    ensures n > 0 && SameTables(x, Iterate(f, x, n))
  {
    var d := FirstRepeat(f, x, domain);
    var i: nat :| i < d && Iterate(f, x, i) == Iterate(f, x, d);
    n := d - i;
    assert n + i == d;
    OrbitHasNoTail(f, SameTables, x, i, n);
  }

  /** Finitely many stripped states hold every stripped state. */
  lemma StrippedAreFinite() returns (domain: set<Gen>)
    ensures forall g :: Strip(g) in domain
  {
    var words := AllWords();
    assert forall w: Word :: InWords(w) && w in words;
    var size: nat := 512;
    var tables := Tables(words, size);
    forall t: seq<Word> | |t| == size ensures t in tables {
      InTables(words, t, size);
    }
    domain := AllStripped(tables);
    forall g: Gen ensures Strip(g) in domain {
      InAllStripped(g, tables);
    }
  }

  lemma ReturnsVia(h: Gen -> Gen, f: Gen -> Gen, g: Gen, domain: set<Gen>)
    requires Respects(h) && Separates(f, SameTables)
    requires forall x :: f(x) == Strip(h(x))
    requires forall x :: Strip(x) in domain
    ensures exists n: nat :: n > 0 && SameTables(g, Iterate(h, g, n))
  {
    var n := StrippedReturns(f, Strip(g), domain);
    RunsStayTogether(h, f, g, Strip(g), n);
  }

  /** A map that tables alone determine, forwards and backwards, brings every state back. */
  lemma Returns(h: Gen -> Gen, g: Gen)
    requires Respects(h) && Separates(h, SameTables)
    ensures exists n: nat :: n > 0 && SameTables(g, Iterate(h, g, n))
  {
    var domain := StrippedAreFinite();
    ReturnsVia(h, x => Strip(h(x)), g, domain);
  }

  /** From any state, running on long enough comes back to the tables and the counter it
      started with. */
  lemma RunsAreCycles(mode: Mode, g: Gen)
    ensures exists n: nat :: n > 0 && SameTables(g, Iterate(Stepper(mode), g, n))
  {
    StepSeparates(mode);
    StepRespects(mode);
    Returns(Stepper(mode), g);
  }

  // ----- the buffer a block starts with never shows -----

  /** Same tables, and the same first n buffered words. */
  predicate Alike(a: Lane, b: Lane, n: nat) {
    a.Ok() && b.Ok() && a.own == b.own && a.other == b.other && forall i | 0 <= i < n && i < 16 :: a.ks[i] == b.ks[i]
  }

  lemma CellOverwrites(half: Half, a: Lane, b: Lane, j: int, n: nat)
    requires Alike(a, b, n) && 0 <= j < 512 && j % 16 == n
    ensures Alike(KeyCell(half, a, j), KeyCell(half, b, j), n + 1)
  {
  }

  lemma {:induction false} CellsOverwrite(half: Half, a: Lane, b: Lane, j: int, n: nat)
    requires Alike(a, b, 0)
    requires 0 <= j && j % 16 == 0 && n <= 16 && j + n <= 512
    ensures Alike(Cells(Key, half, a, j, n), Cells(Key, half, b, j, n), n)
    decreases n
  {
    if n > 0 {
      CellsOverwrite(half, a, b, j, n - 1);
      SlotIs(j, n - 1);
      CellOverwrites(half, Cells(Key, half, a, j, n - 1), Cells(Key, half, b, j, n - 1), j + n - 1, n - 1);
    }
  }

  lemma SlotIs(j: nat, n: nat)
    requires j % 16 == 0 && n < 16
    ensures (j + n) % 16 == n
  {
  }

  /** A block of sixteen words, and the state behind it, come from the tables alone. */
  lemma BlocksIgnoreBuffer(a: Gen, b: Gen)
    requires SameTables(a, b) && a.counter % 16 == 0
    ensures NextKeys(a) == NextKeys(b)
  {
    var n: nat := 16;
    BlockRunsIgnoreBuffer(a, b, n);
    BlockIsSteps(Key, Stepper(Key), a, n);
    BlockIsSteps(Key, Stepper(Key), b, n);
  }

  lemma BlockRunsIgnoreBuffer(a: Gen, b: Gen, n: nat)
    requires SameTables(a, b) && a.counter % 16 == 0 && n == 16
    ensures BlockRun(Key, a, n) == BlockRun(Key, b, n)
  {
    RoomInTable(a.counter, n - 1);
    BlockCounters(a.counter);
    var half, j := HalfOf(a), Index(a.counter);
    CellsOverwrite(half, LaneOf(a), LaneOf(b), j, n);
    var x, y := Cells(Key, half, LaneOf(a), j, n), Cells(Key, half, LaneOf(b), j, n);
    assert x.ks == y.ks;
  }

  lemma BlocksAreReversible()
    ensures Respects(NextKeys) && Separates(NextKeys, SameTables)
  {
    StepRespects(Key);
    var n: nat := 16;
    forall a: Gen, b: Gen | SameTables(a, b) ensures SameTables(NextKeys(a), NextKeys(b)) {
      RunsStayTogether(Stepper(Key), Stepper(Key), a, b, n);
    }
    forall a: Gen, b: Gen | SameTables(NextKeys(a), NextKeys(b)) ensures SameTables(a, b) {
      RunsNeverMerge(Key, a, b, n);
    }
  }

  /** A block drawn from an aligned state comes round again, buffer and all. */
  lemma BlocksComeRound(h: Gen)
    requires h.counter % 16 == 0
    ensures exists n: nat :: n > 0 && Iterate<Gen>(NextKeys, NextKeys(h), n) == NextKeys(h)
  {
    BlocksAreReversible();
    Returns(NextKeys, h);
    var n: nat :| n > 0 && SameTables(h, Iterate<Gen>(NextKeys, h, n));
    BlocksIgnoreBuffer(h, Iterate<Gen>(NextKeys, h, n));
    IterateLast<Gen>(NextKeys, h, n);
    assert Iterate<Gen>(NextKeys, NextKeys(h), n) == NextKeys(h);
  }

  /** From stream byte 0 on, the stream repeats every n blocks. */
  ghost predicate Repeats(g: Gen, n: nat) {
    forall i: nat :: StreamByte(NextKeys, g, 64 * n + i) == StreamByte(NextKeys, g, i)
  }

  lemma {:induction false} StreamFrom(next: Gen -> Gen, g: Gen, n: nat, i: nat)
    ensures StreamByte(next, g, 64 * n + i) == StreamByte(next, Iterate(next, g, n), i)
    decreases n
  {
    if n > 0 {
      assert 64 * n + i - 64 == 64 * (n - 1) + i;
      StreamFrom(next, next(g), n - 1, i);
    }
  }

  lemma StreamReadsBlocks(next: Gen -> Gen, a: Gen, b: Gen, i: nat)
    requires next(a) == next(b)
    ensures StreamByte(next, a, i) == StreamByte(next, b, i)
  {
  }

  lemma StreamRepeats(next: Gen -> Gen, g: Gen, n: nat, i: nat)
    requires next(Iterate(next, g, n)) == next(g)
    ensures StreamByte(next, g, 64 * n + i) == StreamByte(next, g, i)
  {
    StreamFrom(next, g, n, i);
    StreamReadsBlocks(next, Iterate(next, g, n), g, i);
  }

  /** The keystream from an aligned state is purely periodic, from its first byte on. */
  lemma KeystreamIsPeriodic(g: Gen)
    requires g.counter % 16 == 0
    ensures exists n: nat :: n > 0 && Repeats(g, n)
  {
    BlocksComeRound(g);
    var n: nat :| n > 0 && Iterate<Gen>(NextKeys, NextKeys(g), n) == NextKeys(g);
    IterateLast<Gen>(NextKeys, g, n);
    forall i: nat ensures StreamByte(NextKeys, g, 64 * n + i) == StreamByte(NextKeys, g, i) {
      StreamRepeats(NextKeys, g, n, i);
    }
    assert Repeats(g, n);
  }
}
