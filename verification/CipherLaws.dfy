/** What one HC-128 step and one word of the key schedule compute, on plain integers: shifts,
    sums modulo 2^32 and xors, with no function of the reference algorithm in between. */
module CipherLaws {
  import opened Words
  import opened Rotations
  import opened Bits
  import opened Cipher
  import opened Setup

  /** ROTR32 and ROTL32, as shifts. */
  function Ror(x: nat, n: nat): nat
    requires n <= 32
  {
    Or(Shr(x, n), x * Pow2(32 - n) % WORD)
  }

  function Rol(x: nat, n: nat): nat
    requires n <= 32
  {
    Or(x * Pow2(n) % WORD, Shr(x, 32 - n))
  }

  /** rot is the right, or the left, rotation by shifts. */
  ghost predicate ShiftsRight(rot: (Word, nat) -> int) {
    forall x: Word, n: nat {:trigger Ror(x, n)} | 0 < n < 32 :: rot(x, n) == Ror(x, n)
  }

  ghost predicate ShiftsLeft(rot: (Word, nat) -> int) {
    forall x: Word, n: nat {:trigger Rol(x, n)} | 0 < n < 32 :: rot(x, n) == Rol(x, n)
  }

  lemma {:induction false} OrCommutes(x: nat, y: nat)
    ensures Or(x, y) == Or(y, x)
    decreases x + y
  {
    if x != 0 || y != 0 {
      OrCommutes(x / 2, y / 2);
    }
  }

  lemma RotIs(x: Word, n: nat)
    requires 0 < n < 32
    ensures Rot(OnP, x, n) == RotR(x, n) == Ror(x, n) && Rot(OnQ, x, n) == RotL(x, n) == Rol(x, n)
  {
    RotRIsShiftOr(x, n);
    RotLIsShiftOr(x, n);
    OrCommutes(x * Pow2(n) % WORD, Shr(x, 32 - n));
  }

  // ----- one step -----

  lemma AddThree(a: Word, b: Word, c: Word)
    ensures Add(a, Add(b, c)) == (a + c + b) % WORD
  {
  }

  /** Cell i modulo 512. */
  function At(t: seq<Word>, i: int): Word
    requires |t| == 512
  {
    t[i % 512]
  }

  lemma BackIs(t: seq<Word>, j: int, d: int)
    requires |t| == 512 && 0 <= j < 512 && 0 <= d < 512
    ensures t[Back(j, d)] == At(t, j - d)
  {
  }

  lemma GIs(half: Half, c: Word, r8: Word, r10: Word, r23: Word, x: Word, y: Word, z: Word)
    requires r8 == Rot(half, y, 8) && r10 == Rot(half, x, 10) && r23 == Rot(half, z, 23)
    ensures Add(c, G(half, x, y, z)) == (c + r8 + Xor(r23, r10)) % WORD
  {
    XorIsWord(r10, r23);
    XorCommutes(r10, r23);
    AddThree(c, XorW(r10, r23), r8);
  }

  lemma FedIs(half: Half, own: seq<Word>, j: int)
    requires |own| == 512 && 0 <= j < 512
    ensures var x, y, z := At(own, j - 3), At(own, j - 10), At(own, j - 511);
      Fed(half, own, j) == (own[j] + Rot(half, y, 8) + Xor(Rot(half, z, 23), Rot(half, x, 10))) % WORD
  {
    var x, y, z := At(own, j - 3), At(own, j - 10), At(own, j - 511);
    BackIs(own, j, 3);
    BackIs(own, j, 10);
    BackIs(own, j, 511);
    GIs(half, own[j], Rot(half, y, 8), Rot(half, x, 10), Rot(half, z, 23), x, y, z);
  }

  /** P[j] + P[j-10] turned by 8 + (P[j-511] turned by 23 xor P[j-3] turned by 10). */
  predicate FedBy(rot: (Word, nat) -> int, t: seq<Word>, j: int, fed: int)
    requires |t| == 512 && 0 <= j < 512
  {
    var a, b, c := rot(At(t, j - 10), 8), rot(At(t, j - 511), 23), rot(At(t, j - 3), 10);
    b >= 0 && c >= 0 && fed == (t[j] + a + Xor(b, c)) % WORD
  }

  /** Bytes 0 and 2 of own[j-12] pick a word each from the halves of the other table. */
  predicate TappedBy(own: seq<Word>, other: seq<Word>, j: int, tap: int)
    requires |own| == |other| == 512
  {
    var u := At(own, j - 12);
    tap == (other[u % 256] + other[256 + u / 0x1_0000 % 256]) % WORD
  }

  lemma FedOnP(rot: (Word, nat) -> int, own: seq<Word>, j: int)
    requires ShiftsRight(rot) && |own| == 512 && 0 <= j < 512
    ensures FedBy(rot, own, j, Fed(OnP, own, j))
  {
    FedIs(OnP, own, j);
    RotIs(At(own, j - 3), 10);
    RotIs(At(own, j - 10), 8);
    RotIs(At(own, j - 511), 23);
  }

  lemma FedOnQ(rot: (Word, nat) -> int, own: seq<Word>, j: int)
    requires ShiftsLeft(rot) && |own| == 512 && 0 <= j < 512
    ensures FedBy(rot, own, j, Fed(OnQ, own, j))
  {
    FedIs(OnQ, own, j);
    RotIs(At(own, j - 3), 10);
    RotIs(At(own, j - 10), 8);
    RotIs(At(own, j - 511), 23);
  }

  lemma TapIs(own: seq<Word>, other: seq<Word>, j: int)
    requires |own| == |other| == 512 && 0 <= j < 512
    ensures TappedBy(own, other, j, Tap(own, other, j))
  {
    BackIs(own, j, 12);
    var u := At(own, j - 12);
    AddIsSum(other[u % 256], other[256 + u / 0x1_0000 % 256]);
  }

  /** Everything but cell j of the table, and buffer slot k, stays. */
  predicate OnlyAt(before: seq<Word>, after: seq<Word>, j: int) {
    |before| == |after| && forall i | 0 <= i < |before| && i != j :: after[i] == before[i]
  }

  lemma CellIs(mode: Mode, half: Half, l: Lane, j: int, fed: Word, tap: Word)
    requires l.Ok() && 0 <= j < 512 && fed == Fed(half, l.own, j) && tap == Tap(l.own, l.other, j)
    ensures var r := Cell(mode, half, l, j);
      && r.other == l.other && OnlyAt(l.own, r.own, j)
      && (mode.Key? ==> r.own[j] == fed && r.ks[j % 16] == Xor(tap, fed) && OnlyAt(l.ks, r.ks, j % 16))
      && (mode.Warm? ==> r.own[j] == Xor(tap, fed) && r.ks == l.ks)
  {
    XorIsWord(tap, fed);
    assert Tap(l.own[j := fed], l.other, j) == tap;
  }

  /** What step j leaves of one table, the buffer and the rest, for a fed cell and a tapped word. */
  predicate Stepped(mode: Mode, own: seq<Word>, ks: seq<Word>, own': seq<Word>, ks': seq<Word>, j: int,
                    fed: int, tap: int)
    requires |own| == |own'| == 512 && |ks| == |ks'| == 16 && 0 <= j < 512
  {
    && OnlyAt(own, own', j) && fed >= 0 && tap >= 0
    && if mode.Key? then own'[j] == fed && ks'[j % 16] == Xor(tap, fed) && OnlyAt(ks, ks', j % 16)
       else own'[j] == Xor(tap, fed) && ks' == ks
  }

  lemma StepOnP(mode: Mode, g: Gen, fed: Word, tap: Word)
    requires g.counter < 512 && fed == Fed(OnP, g.p, g.counter) && tap == Tap(g.p, g.q, g.counter)
    ensures var h := Step(mode, g);
      Stepped(mode, g.p, g.ks, h.p, h.ks, g.counter, fed, tap) && h.q == g.q && h.counter == g.counter + 1
  {
    CellIs(mode, OnP, LaneOf(g), g.counter, fed, tap);
  }

  lemma StepOnQ(mode: Mode, g: Gen, fed: Word, tap: Word)
    requires g.counter >= 512 && fed == Fed(OnQ, g.q, g.counter - 512) && tap == Tap(g.q, g.p, g.counter - 512)
    ensures var h := Step(mode, g);
      Stepped(mode, g.q, g.ks, h.q, h.ks, g.counter - 512, fed, tap)
      && h.p == g.p && h.counter == (g.counter + 1) % 1024
  {
    CellIs(mode, OnQ, LaneOf(g), g.counter - 512, fed, tap);
  }

  /** One step below counter 512: right rotations of P, words tapped from Q. The fed cell stays
      and its xor with the tapped word is the keystream (section 2.3 of Wu), or that xor is
      fed back into the cell (section 2.2). */
  lemma StepLawOnP(rot: (Word, nat) -> int, mode: Mode, g: Gen, fed: int, tap: int)
    requires ShiftsRight(rot) && g.counter < 512
    requires FedBy(rot, g.p, g.counter, fed) && TappedBy(g.p, g.q, g.counter, tap)
    ensures var h := Step(mode, g);
      Stepped(mode, g.p, g.ks, h.p, h.ks, g.counter, fed, tap) && h.q == g.q && h.counter == g.counter + 1
  {
    FedOnP(rot, g.p, g.counter);
    TapIs(g.p, g.q, g.counter);
    StepOnP(mode, g, Fed(OnP, g.p, g.counter), Tap(g.p, g.q, g.counter));
  }

  /** One step from counter 512 on: left rotations of Q, words tapped from P. */
  lemma StepLawOnQ(rot: (Word, nat) -> int, mode: Mode, g: Gen, fed: int, tap: int)
    requires ShiftsLeft(rot) && g.counter >= 512
    requires FedBy(rot, g.q, g.counter - 512, fed) && TappedBy(g.q, g.p, g.counter - 512, tap)
    ensures var h := Step(mode, g);
      Stepped(mode, g.q, g.ks, h.q, h.ks, g.counter - 512, fed, tap)
      && h.p == g.p && h.counter == (g.counter + 1) % 1024
  {
    FedOnQ(rot, g.q, g.counter - 512);
    TapIs(g.q, g.p, g.counter - 512);
    StepOnQ(mode, g, Fed(OnQ, g.q, g.counter - 512), Tap(g.q, g.p, g.counter - 512));
  }

  // ----- the key schedule -----

  lemma F1Is(x: Word)
    ensures F1(x) == Xor(Xor(Ror(x, 7), Ror(x, 18)), x / 8)
  {
    RotIs(x, 7);
    RotIs(x, 18);
    ShrWIsShr(x, 3);
    ShrIsDivision(x, 3);
    assert Pow2(3) == 8;
    XorIsWord(RotR(x, 7), RotR(x, 18));
    XorIsWord(XorW(RotR(x, 7), RotR(x, 18)), ShrW(x, 3));
  }

  lemma F2Is(x: Word)
    ensures F2(x) == Xor(Xor(Ror(x, 17), Ror(x, 19)), x / 1024)
  {
    RotIs(x, 17);
    RotIs(x, 19);
    ShrWIsShr(x, 10);
    ShrIsDivision(x, 10);
    assert Pow2(10) == 1024;
    XorIsWord(RotR(x, 17), RotR(x, 19));
    XorIsWord(XorW(RotR(x, 17), RotR(x, 19)), ShrW(x, 10));
  }

  /** Word k of sixteen bytes, lowest byte first. */
  function WordAt(b: seq<Byte>, k: nat): int
    requires 4 * k + 4 <= |b|
  {
    var b0: int, b1: int, b2: int, b3: int := b[4 * k], b[4 * k + 1], b[4 * k + 2], b[4 * k + 3];
    b0 + 0x100 * b1 + 0x1_0000 * b2 + 0x100_0000 * b3
  }

  predicate SeededAt(key: seq<Byte>, iv: seq<Byte>, w: seq<Word>, k: nat)
    requires |key| == |iv| == 16 && |w| >= 16 && k < 4
  {
    w[k] == w[k + 4] == WordAt(key, k) && w[k + 8] == w[k + 12] == WordAt(iv, k)
  }

  /** w starts with the key twice and the IV twice. */
  predicate Seeded(key: seq<Byte>, iv: seq<Byte>, w: seq<Word>)
    requires |key| == |iv| == 16 && |w| >= 16
  {
    forall k: nat | k < 4 :: SeededAt(key, iv, w, k)
  }

  /** W[i] = f2(W[i-2]) + W[i-7] + f1(W[i-15]) + W[i-16] + i, with f1 and f2 as shifts. */
  predicate RecursAt(w: seq<Word>, i: nat)
    requires 16 <= i < |w|
  {
    w[i] == (Xor(Xor(Ror(w[i - 2], 17), Ror(w[i - 2], 19)), w[i - 2] / 1024) + w[i - 7]
             + Xor(Xor(Ror(w[i - 15], 7), Ror(w[i - 15], 18)), w[i - 15] / 8) + w[i - 16] + i) % WORD
  }

  /** The 1280 words of section 2.2, said without the functions that compute them. */
  ghost predicate IsSchedule(key: seq<Byte>, iv: seq<Byte>, w: seq<Word>)
    requires |key| == |iv| == 16
  {
    |w| == 1280 && Seeded(key, iv, w) && forall i: nat | 16 <= i < 1280 :: RecursAt(w, i)
  }

  lemma AddFive(a: Word, b: Word, c: Word, d: Word, e: Word)
    ensures Add(Add(Add(Add(a, b), c), d), e) == (a + b + c + d + e) % WORD
  {
  }

  lemma SumIs(w: seq<Word>, i: nat)
    requires 16 <= i < |w| < WORD
    ensures RecursAt(w, i)
       <==> w[i] == Add(Add(Add(Add(F2(w[i - 2]), w[i - 7]), F1(w[i - 15])), w[i - 16]), i)
  {
    F2Is(w[i - 2]);
    F1Is(w[i - 15]);
    AddFive(F2(w[i - 2]), w[i - 7], F1(w[i - 15]), w[i - 16], i);
  }

  lemma SeedIsSeeded(key: seq<Byte>, iv: seq<Byte>, w: seq<Word>)
    requires |key| == |iv| == 16 && |w| >= 16 && w[..16] == Seed(key, iv)
    ensures Seeded(key, iv, w)
  {
    forall k: nat | k < 4 ensures SeededAt(key, iv, w, k) {
      assert w[k] == w[..16][k] && w[k + 4] == w[..16][k + 4] && w[k + 8] == w[..16][k + 8];
      assert w[k + 12] == w[..16][k + 12];
    }
  }

  lemma SeededIsUnique(key: seq<Byte>, iv: seq<Byte>, a: seq<Word>, b: seq<Word>)
    requires |key| == |iv| == 16 && |a| >= 16 && |b| >= 16 && Seeded(key, iv, a) && Seeded(key, iv, b)
    ensures forall i | 0 <= i < 16 :: a[i] == b[i]
  {
    forall i | 0 <= i < 16 ensures a[i] == b[i] {
      var k := if i < 4 then i else if i < 8 then i - 4 else if i < 12 then i - 8 else i - 12;
      assert SeededAt(key, iv, a, k) && SeededAt(key, iv, b, k);
    }
  }

  lemma ExpansionRecurs(w: seq<Word>, i: nat)
    requires IsExpansion(w) && 16 <= i < |w|
    ensures RecursAt(w, i)
  {
    RecurrenceAt(w, i);
    SumIs(w, i);
  }

  lemma ExpansionIsSchedule(key: seq<Byte>, iv: seq<Byte>, w: seq<Word>, n: nat)
    requires |key| == |iv| == 16 && n == 1264 && w == Expand(Seed(key, iv), n)
    ensures IsSchedule(key, iv, w)
  {
    ExpandIsExpansion(Seed(key, iv), n);
    SeedIsSeeded(key, iv, w);
    forall i: nat | 16 <= i < 1280 ensures RecursAt(w, i) {
      ExpansionRecurs(w, i);
    }
  }

  lemma NextAgrees(a: seq<Word>, b: seq<Word>, i: nat)
    requires 16 <= i < |a| == |b| < WORD && RecursAt(a, i) && RecursAt(b, i)
    requires a[i - 2] == b[i - 2] && a[i - 7] == b[i - 7] && a[i - 15] == b[i - 15] && a[i - 16] == b[i - 16]
    ensures a[i] == b[i]
  {
    SumIs(a, i);
    SumIs(b, i);
  }

  lemma {:induction false} SchedulesAgree(a: seq<Word>, b: seq<Word>, n: nat)
    requires |a| == |b| < WORD && 16 <= n <= |a| && forall i | 0 <= i < 16 :: a[i] == b[i]
    requires forall i: nat | 16 <= i < |a| :: RecursAt(a, i) && RecursAt(b, i)
    ensures forall i | 0 <= i < n :: a[i] == b[i]
    decreases n
  {
    if n > 16 {
      SchedulesAgree(a, b, n - 1);
      NextAgrees(a, b, n - 1);
    }
  }

  /** The tables before the warm-up are words 256 to 767 and 768 to 1279 of the one schedule
      that key and IV have. */
  lemma TablesAreSchedule(key: seq<Byte>, iv: seq<Byte>, ks: seq<Word>, w: seq<Word>)
    requires |key| == |iv| == 16 && |ks| == 16
    ensures IsSchedule(key, iv, w) <==> w == Expand(Seed(key, iv), 1264)
    ensures IsSchedule(key, iv, w) ==>
      var g := Loaded(key, iv, ks); g.p == w[256..768] && g.q == w[768..1280] && g.counter == 0
  {
    var n: nat := 1264;
    var e := Expand(Seed(key, iv), n);
    ExpansionIsSchedule(key, iv, e, n);
    if IsSchedule(key, iv, w) {
      SeededIsUnique(key, iv, w, e);
      SchedulesAgree(w, e, 1280);
    }
  }
}
