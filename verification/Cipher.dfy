/** HC-128 one step at a time, after sections 2.2 and 2.3 of Hongjun Wu,
    "The Stream Cipher HC-128": the reference the unrolled code refines. */
module Cipher {
  import opened Words
  import opened Iteration

  /** Which table a step updates: P rotates right, Q rotates left. */
  datatype Half = OnP | OnQ

  function Rot(half: Half, x: Word, n: nat): Word {
    if half == OnP then RotR(x, n) else RotL(x, n)
  }

  /** g1 on P, g2 on Q. */
  function G(half: Half, x: Word, y: Word, z: Word): Word {
    Add(XorW(Rot(half, x, 10), Rot(half, z, 23)), Rot(half, y, 8))
  }

  /** h1 reads Q, h2 reads P: bytes 0 and 2 of x pick one word from each half. */
  function H(other: seq<Word>, x: Word): Word
    requires |other| == 512
  {
    Add(other[x % 256], other[256 + x / 0x1_0000 % 256])
  }

  function F1(x: Word): Word {
    XorW(XorW(RotR(x, 7), RotR(x, 18)), ShrW(x, 3))
  }

  function F2(x: Word): Word {
    XorW(XorW(RotR(x, 17), RotR(x, 19)), ShrW(x, 10))
  }

  /** j minus d, modulo 512. */
  function Back(j: int, d: int): (r: int)
    requires 0 <= j < 512 && 0 <= d < 512
    ensures 0 <= r < 512
  {
    if d <= j then j - d else j - d + 512
  }

  /** Cell j after the additive feedback. */
  function Fed(half: Half, own: seq<Word>, j: int): Word
    requires |own| == 512 && 0 <= j < 512
  {
    Add(own[j], G(half, own[Back(j, 3)], own[Back(j, 10)], own[Back(j, 511)]))
  }

  function Tap(own: seq<Word>, other: seq<Word>, j: int): Word
    requires |own| == |other| == 512 && 0 <= j < 512
  {
    H(other, own[Back(j, 12)])
  }

  /** The table being updated, the other one, and the keystream buffer. */
  datatype Lane = Lane(own: seq<Word>, other: seq<Word>, ks: seq<Word>) {
    predicate Ok() {
      |own| == 512 && |other| == 512 && |ks| == 16
    }
  }

  /** One keystream step on cell j; its word goes to buffer slot j mod 16. */
  function KeyCell(half: Half, lane: Lane, j: int): (r: Lane)
    requires lane.Ok() && 0 <= j < 512
    ensures r.Ok()
  {
    var own := lane.own[j := Fed(half, lane.own, j)];
    Lane(own, lane.other, lane.ks[j % 16 := XorW(Tap(own, lane.other, j), own[j])])
  }

  /** One initialization step on cell j: the word is fed back into the cell. */
  function WarmCell(half: Half, lane: Lane, j: int): (r: Lane)
    requires lane.Ok() && 0 <= j < 512
    ensures r.Ok()
  {
    var fed := Fed(half, lane.own, j);
    lane.(own := lane.own[j := XorW(Tap(lane.own, lane.other, j), fed)])
  }

  datatype Mode = Key | Warm

  function Cell(mode: Mode, half: Half, lane: Lane, j: int): (r: Lane)
    requires lane.Ok() && 0 <= j < 512
    ensures r.Ok()
  {
    if mode.Key? then KeyCell(half, lane, j) else WarmCell(half, lane, j)
  }

  /** n steps from cell j on. */
  function Cells(mode: Mode, half: Half, lane: Lane, j: int, n: nat): (r: Lane)
    requires lane.Ok() && 0 <= j && j + n <= 512
    ensures r.Ok()
  {
    if n == 0 then lane else Cell(mode, half, Cells(mode, half, lane, j, n - 1), j + n - 1)
  }

  datatype Snapshot = Snapshot(p: seq<Word>, q: seq<Word>, ks: seq<Word>, counter: nat) {
    predicate Ok() {
      |p| == 512 && |q| == 512 && |ks| == 16 && counter < 1024
    }
  }

  /** The value of an HC128_State. */
  type Gen = s: Snapshot | s.Ok() witness Snapshot(Zeros(512), Zeros(512), Zeros(16), 0)

  function HalfOf(g: Gen): Half {
    if g.counter < 512 then OnP else OnQ
  }

  function LaneOf(g: Gen): (l: Lane)
    ensures l.Ok()
  {
    if g.counter < 512 then Lane(g.p, g.q, g.ks) else Lane(g.q, g.p, g.ks)
  }

  /** The cell a counter value stands for. */
  function Index(counter: nat): (j: int)
    requires counter < 1024
    ensures 0 <= j < 512
  {
    if counter < 512 then counter else counter - 512
  }

  function Tick(counter: nat): (c: nat)
    requires counter < 1024
    ensures c < 1024
  {
    if counter == 1023 then 0 else counter + 1
  }

  function WithLane(g: Gen, l: Lane, counter: nat): Gen
    requires l.Ok() && counter < 1024
  {
    if g.counter < 512 then Snapshot(l.own, l.other, l.ks, counter) else Snapshot(l.other, l.own, l.ks, counter)
  }

  /** Step i = counter of the algorithm, on table P for i < 512 and Q otherwise. */
  function Step(mode: Mode, g: Gen): Gen {
    WithLane(g, Cell(mode, HalfOf(g), LaneOf(g), Index(g.counter)), Tick(g.counter))
  }

  function Stepper(mode: Mode): Gen -> Gen {
    g => Step(mode, g)
  }

  /** The state after HC128_NextKeys: sixteen steps of section 2.3. */
  function NextKeys(g: Gen): Gen {
    Iterate(Stepper(Key), g, 16)
  }

  /** next is a name for NextKeys, unfolded only where NextKeys is mentioned. */
  ghost predicate IsNext(next: Gen -> Gen) {
    forall g: Gen {:trigger NextKeys(g)} :: next(g) == NextKeys(g)
  }

  // ----- key and IV expansion -----

  function Le32(b: seq<Byte>, at: nat): Word
    requires at + 4 <= |b|
  {
    var b0: int, b1: int, b2: int, b3: int := b[at], b[at + 1], b[at + 2], b[at + 3];
    b0 + 0x100 * b1 + 0x1_0000 * b2 + 0x100_0000 * b3
  }

  function Seed(key: seq<Byte>, iv: seq<Byte>): (w: seq<Word>)
    requires |key| == |iv| == 16
    ensures |w| == 16
  {
    var k := [Le32(key, 0), Le32(key, 4), Le32(key, 8), Le32(key, 12)];
    var v := [Le32(iv, 0), Le32(iv, 4), Le32(iv, 8), Le32(iv, 12)];
    k + k + v + v
  }

  /** W[i] of the recurrence, from the i words before it. */
  function NextW(w: seq<Word>): Word
    requires 16 <= |w| < WORD
  {
    var i := |w|;
    Add(Add(Add(Add(F2(w[i - 2]), w[i - 7]), F1(w[i - 15])), w[i - 16]), i)
  }

  function Expand(w: seq<Word>, n: nat): (r: seq<Word>)
    requires 16 <= |w| && |w| + n <= WORD
    ensures |r| == |w| + n && w <= r
    decreases n, w
  {
    if n == 0 then w else Expand(w + [NextW(w)], n - 1)
  }

  /** The tables as the expansion leaves them; the keystream buffer is untouched. */
  function Loaded(key: seq<Byte>, iv: seq<Byte>, ks: seq<Word>): Gen
    requires |key| == |iv| == 16 && |ks| == 16
  {
    var w := Expand(Seed(key, iv), 1264);
    Snapshot(w[256..768], w[768..1280], ks, 0)
  }

  /** The state after HC128_Init: 1024 feedback steps of section 2.2. */
  function Init(key: seq<Byte>, iv: seq<Byte>, ks: seq<Word>): Gen
    requires |key| == |iv| == 16 && |ks| == 16
  {
    Iterate(Stepper(Warm), Loaded(key, iv, ks), 1024)
  }
}
