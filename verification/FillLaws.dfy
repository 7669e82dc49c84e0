/** What the fills promise: run-ahead computes what the serial loop computes, every read
    and write stays in bounds, and the block cache never reaches the picks except through
    the bytes a reseed reads. */
module FillLaws {
  import opened Words
  import opened Iteration
  import opened Fission
  import opened Stream
  import opened Sampler
  import opened MulHigh
  import opened ChainFill

  // ----- run-ahead against serial -----

  ghost predicate CountsUp(emit: (Page, Plan) -> Page) {
    forall p, q {:trigger emit(p, q)} :: emit(p, q).count == p.count + 1 && (p.Ok() ==> emit(p, q).Ok())
  }

  lemma {:induction false} FusedCounts(plan: Rng -> Option<(Rng, Plan)>, emit: (Page, Plan) -> Page,
                                       r: Rng, page: Page, n: nat)
    requires CountsUp(emit) && Fused(plan, emit, r, page, n).Some?
    ensures var p := Fused(plan, emit, r, page, n).value.1; p.count == page.count + n && (page.Ok() ==> p.Ok())
    decreases n
  {
    if n > 0 {
      FusedCounts(plan, emit, plan(r).value.0, emit(page, plan(r).value.1), n - 1);
    }
  }

  lemma BlockCounts(job: Job, s: Salt)
    requires SerialBlock(job, s).Some?
    ensures SerialBlock(job, s).value.page.count == s.page.count + 16
    ensures s.page.Ok() ==> SerialBlock(job, s).value.page.Ok()
  {
    FusedCounts(Planner(job), Emitter(job), Opened(job, s.r), s.page, 16);
  }

  lemma RoundCounts(job: Job, s: Salt)
    requires SerialRound(job, s).Some?
    ensures SerialRound(job, s).value.page.count == s.page.count + 16
    ensures s.page.Ok() ==> SerialRound(job, s).value.page.Ok()
  {
    BlockCounts(job, s);
  }

  lemma RunAheadRoundIsSerial(job: Job, s: Salt)
    ensures RunAheadRound(job, s) == var t := SerialRound(job, s);
      if t.Some? && t.value.page.count == 2048 then MaybeMidpoint(job, t.value) else t
  {
    RunAheadBlockIsSerial(job, s);
  }

  ghost function Done(s: Salt): nat {
    s.page.count
  }

  lemma RunAheadActsAtMidpoint(job: Job)
    ensures ActsAt(SerialRounds(job), Middle(job), RunAheadRounds(job), Done, 2048)
  {
    var f, g, act := SerialRounds(job), RunAheadRounds(job), Middle(job);
    forall t: Salt ensures g(t) == if f(t).Some? && Done(f(t).value) == 2048 then act(f(t).value) else f(t) {
      RunAheadRoundIsSerial(job, t);
    }
  }

  lemma RoundsCount(job: Job)
    ensures Counts(SerialRounds(job), Middle(job), Done)
  {
    var f := SerialRounds(job);
    forall t: Salt | f(t).Some? ensures Done(f(t).value) == Done(t) + 16 {
      RoundCounts(job, t);
    }
  }

  /** A loop of 256 rounds that acts when 2048 messages are done is two loops of 128. */
  lemma MidpointSplitsLoop(f: Salt -> Option<Salt>, act: Salt -> Option<Salt>, g: Salt -> Option<Salt>, s: Salt)
    requires ActsAt(f, act, g, Done, 2048) && Counts(f, act, Done) && s.page.count == 0
    ensures Repeat(g, s, 256) == TwoLoops(f, act, s, 128, 128)
  {
    var n: nat := 128;
    ActionSplitsLoop(f, act, g, Done, s, n, n);
  }

  /** The run-ahead fill returns exactly when the serial fill does, with the same bytes,
      the same generator and the same cursor. */
  lemma RunAheadFillIsSerial(job: Job, s: Salt)
    requires s.page.count == 0
    ensures RunAheadFill(job, s) == SerialFill(job, s)
  {
    RunAheadActsAtMidpoint(job);
    RoundsCount(job);
    MidpointSplitsLoop(SerialRounds(job), Middle(job), RunAheadRounds(job), s);
  }

  /** Without a midpoint reseed the serial fill is one loop of 256 blocks. */
  lemma SerialFillIsOneLoop(job: Job, s: Salt)
    requires !job.rules.midpoint
    ensures SerialFill(job, s) == Repeat(SerialRounds(job), s, 256)
  {
    NothingInTheMiddle(SerialRounds(job), Middle(job), s, 128, 128);
  }

  // ----- bounds -----

  /** Every pick is an index into the cache. */
  lemma PickIsBelowHeight(job: Job, r: Rng)
    requires Pick(job, r).Some?
    ensures Pick(job, r).value.1 < |job.cache|
  {
    HighIsBelow(Peek(job.next, r), |job.cache|);
  }

  /** Every index a plan holds is an index into the cache. */
  lemma PlanIsBelowHeight(job: Job, r: Rng)
    requires PlanMessage(job, r).Some?
    ensures forall i | 0 <= i < 4 :: PlanMessage(job, r).value.1.idx[i] < |job.cache|
  {
    var pick := Picker(job);
    forall x: Rng | pick(x).Some? ensures pick(x).value.1 < |job.cache| {
      PickIsBelowHeight(job, x);
    }
    PlannedAll<Rng, nat>(pick, (i: nat) => i < |job.cache|, r, 4);
  }

  /** Key and IV come from bytes already produced: the IV from the last 512, the key from
      the 512 before them. */
  lemma SeedsAreInBounds(page: Page, a: nat, b: nat)
    requires page.Ok() && page.count >= 16 && a <= 495 && b <= 495
    ensures var n := |page.out|;
      && IvAt(page, a) == page.out[n - 512 + a..n - 512 + a + 16] && n - 512 <= n - 512 + a && n - 512 + a + 16 <= n
      && KeyAt(page, b) == page.out[n - 1024 + b..n - 1024 + b + 16]
      && 0 <= n - 1024 + b && n - 1024 + b + 16 <= n - 512
  {
  }

  /** A finished fill has written all 262144 bytes. */
  lemma FillIsComplete(job: Job, s: Salt)
    requires s.page.Ok() && s.page.count == 0 && SerialFill(job, s).Some?
    ensures |SerialFill(job, s).value.page.out| == 262144
  {
    var f := SerialRounds(job);
    FirstHalf(job, s);
    var a := MaybeMidpoint(job, Repeat(f, s, 128).value).value;
    assert a.page.Ok() && a.page.count == 2048;
    FirstHalf(job, a);
  }

  lemma FirstHalf(job: Job, s: Salt)
    requires s.page.Ok() && Repeat(SerialRounds(job), s, 128).Some?
    ensures var t := Repeat(SerialRounds(job), s, 128).value; t.page.Ok() && t.page.count == s.page.count + 2048
  {
    var f := SerialRounds(job);
    forall t: Salt | f(t).Some? && t.page.Ok() ensures f(t).value.page.Ok() {
      RoundCounts(job, t);
    }
    RepeatKeeps(f, (t: Salt) => t.page.Ok(), s, 128);
    RoundsCount(job);
    CountRounds(f, Middle(job), Done, s, 128);
  }

  // ----- what the cache can influence -----

  /** Two fills that differ in nothing but the contents of their caches. */
  ghost predicate SameButCache(a: Job, b: Job) {
    a.next == b.next && a.init == b.init && a.rules == b.rules && |a.cache| == |b.cache|
  }

  lemma FourPicksIgnoreCache(a: Job, b: Job, r: Rng, n: nat)
    requires SameButCache(a, b)
    ensures Planned<Rng, nat>(Picker(a), r, n) == Planned<Rng, nat>(Picker(b), r, n)
  {
    var p, q := Picker(a), Picker(b);
    assert forall x :: p(x) == q(x);
    PlannedSame<Rng, nat>(p, q, r, n);
  }

  lemma PlansIgnoreCache(a: Job, b: Job, r: Rng)
    requires SameButCache(a, b)
    ensures PlanMessage(a, r) == PlanMessage(b, r)
  {
    FourPicksIgnoreCache(a, b, r, 4);
  }

  /** The indices and keystream of a block, all of them decided before the cache is read. */
  ghost function BlockPlan(job: Job, r: Rng): Option<(Rng, seq<Plan>)> {
    Planned(Planner(job), Opened(job, r), 16)
  }

  lemma BlocksIgnoreCache(a: Job, b: Job, r: Rng)
    requires SameButCache(a, b)
    ensures BlockPlan(a, r) == BlockPlan(b, r)
  {
    var p, q := Planner(a), Planner(b);
    forall x: Rng ensures p(x) == q(x) {
      PlansIgnoreCache(a, b, x);
    }
    PlannedSame(p, q, Opened(a, r), 16);
  }

  /** The key and IV the reseed after a block reads, when there is one. */
  ghost function SeedRead(job: Job, s: Salt): Option<(seq<Byte>, seq<Byte>)> {
    if !ReseedDue(job, s.page) then None
    else
      var x := Draw(job.next, s.r, 496);
      if x.None? then None
      else
        var y := Draw(job.next, x.value.0, 496);
        if y.None? then None else Some((KeyAt(s.page, y.value.1), IvAt(s.page, x.value.1)))
  }

  /** Same generator, same cursor, same number of messages; the bytes may differ. */
  ghost predicate InStep(s: Option<Salt>, t: Option<Salt>) {
    if s.None? || t.None? then s.None? && t.None?
    else s.value.r == t.value.r && s.value.page.count == t.value.page.count
  }

  lemma BlocksStayInStep(a: Job, b: Job, s: Salt, t: Salt)
    requires SameButCache(a, b) && InStep(Some(s), Some(t))
    ensures InStep(SerialBlock(a, s), SerialBlock(b, t))
  {
    BlocksIgnoreCache(a, b, s.r);
    RunAheadBlockIsSerial(a, s);
    RunAheadBlockIsSerial(b, t);
    if SerialBlock(a, s).Some? && SerialBlock(b, t).Some? {
      BlockCounts(a, s);
      BlockCounts(b, t);
    }
  }

  lemma ReseedsStayInStep(a: Job, b: Job, s: Salt, t: Salt)
    requires SameButCache(a, b) && InStep(Some(s), Some(t)) && SeedRead(a, s) == SeedRead(b, t)
    ensures InStep(Reseed(a, s), Reseed(b, t))
  {
  }

  /** The reseeds of the next n rounds read the same bytes in both runs. */
  ghost predicate SameSeeds(a: Job, b: Job, s: Salt, t: Salt, n: nat)
    decreases n, s, t
  {
    n > 0 && SerialBlock(a, s).Some? && SerialBlock(b, t).Some? ==>
      && SeedRead(a, SerialBlock(a, s).value) == SeedRead(b, SerialBlock(b, t).value)
      && (SerialRound(a, s).Some? && SerialRound(b, t).Some? ==>
            SameSeeds(a, b, SerialRound(a, s).value, SerialRound(b, t).value, n - 1))
  }

  /** The indices and keystream of the next n rounds, block by block. */
  ghost function RoundPlans(job: Job, s: Salt, n: nat): seq<Option<(Rng, seq<Plan>)>>
    decreases n, s
  {
    if n == 0 then []
    else
      var t := SerialRound(job, s);
      [BlockPlan(job, s.r)] + if t.None? then [] else RoundPlans(job, t.value, n - 1)
  }

  /** Two arbitrary caches: as long as the reseeds read the same bytes, both runs make the
      same picks from the same keystream, round after round. */
  lemma {:induction false} PicksFollowSeeds(a: Job, b: Job, s: Salt, t: Salt, n: nat)
    requires SameButCache(a, b) && InStep(Some(s), Some(t)) && SameSeeds(a, b, s, t, n)
    ensures InStep(Repeat(SerialRounds(a), s, n), Repeat(SerialRounds(b), t, n))
    ensures RoundPlans(a, s, n) == RoundPlans(b, t, n)
    decreases n
  {
    if n > 0 {
      BlocksIgnoreCache(a, b, s.r);
      BlocksStayInStep(a, b, s, t);
      if SerialBlock(a, s).Some? {
        ReseedsStayInStep(a, b, SerialBlock(a, s).value, SerialBlock(b, t).value);
        if SerialRound(a, s).Some? {
          PicksFollowSeeds(a, b, SerialRound(a, s).value, SerialRound(b, t).value, n - 1);
        }
      }
    }
  }

  // ----- across the midpoint -----

  /** The 32 bytes the midpoint reseed encrypts into its key and IV: sixteen of the output,
      and sixteen left over from the last message. */
  ghost function MidRead(job: Job, s: Salt): Option<seq<Byte>> {
    var p := Planned<Rng, nat>(HalfPicker(job.next), s.r, 4);
    if p.None? then None else Some(MidMessage(s.page, p.value.1[3])[..32])
  }

  lemma PadsAgree(m: seq<Byte>, k: seq<Byte>, ks: Pad)
    requires |m| == |k| == 64 && m[..32] == k[..32]
    ensures XorPad(m, ks)[..16] == XorPad(k, ks)[..16] && XorPad(m, ks)[16..32] == XorPad(k, ks)[16..32]
  {
    forall i | 0 <= i < 32 ensures XorPad(m, ks)[i] == XorPad(k, ks)[i] {
      assert m[i] == m[..32][i] && k[i] == k[..32][i];
    }
  }

  lemma MidpointsStayInStep(a: Job, b: Job, s: Salt, t: Salt)
    requires SameButCache(a, b) && InStep(Some(s), Some(t)) && MidRead(a, s) == MidRead(b, t)
    ensures InStep(Midpoint(a, s), Midpoint(b, t))
  {
    var p := Planned<Rng, nat>(HalfPicker(a.next), s.r, 4);
    if p.Some? {
      var x := p.value.1[3];
      PadsAgree(MidMessage(s.page, x), MidMessage(t.page, x), a.next(p.value.0.g).ks);
    }
  }

  lemma MiddlesStayInStep(a: Job, b: Job, x: Option<Salt>, y: Option<Salt>)
    requires SameButCache(a, b) && InStep(x, y)
    requires x.Some? && y.Some? && a.rules.midpoint ==> MidRead(a, x.value) == MidRead(b, y.value)
    ensures InStep(Then(x, Middle(a)), Then(y, Middle(b)))
  {
    if x.Some? && a.rules.midpoint {
      MidpointsStayInStep(a, b, x.value, y.value);
    }
  }

  /** What the first half leaves, and the midpoint reseed makes of it. */
  ghost function FirstHalfOf(job: Job, s: Salt): Option<Salt> {
    Repeat(SerialRounds(job), s, 128)
  }

  ghost function Middled(job: Job, s: Salt): Option<Salt> {
    Then(FirstHalfOf(job, s), Middle(job))
  }

  /** Every byte the two fills seed a generator from, at reseeds and at the midpoint, agrees. */
  ghost predicate SameReads(a: Job, b: Job, s: Salt, t: Salt) {
    var x, y, u, v := FirstHalfOf(a, s), FirstHalfOf(b, t), Middled(a, s), Middled(b, t);
    && SameSeeds(a, b, s, t, 128)
    && (x.Some? && y.Some? && a.rules.midpoint ==> MidRead(a, x.value) == MidRead(b, y.value))
    && (u.Some? && v.Some? ==> SameSeeds(a, b, u.value, v.value, 128))
  }

  /** The indices and keystream of a whole fill. */
  ghost function FillPlans(job: Job, s: Salt): seq<Option<(Rng, seq<Plan>)>> {
    var u := Middled(job, s);
    RoundPlans(job, s, 128) + if u.None? then [] else RoundPlans(job, u.value, 128)
  }

  lemma FillIsHalves(job: Job, s: Salt)
    ensures SerialFill(job, s)
         == var u := Middled(job, s); if u.None? then None else Repeat(SerialRounds(job), u.value, 128)
  {
  }

  /** A whole fill over two arbitrary caches of one size, midpoint included: as long as every
      seed byte agrees, all picks and all keystream agree, and both fills return or neither. */
  lemma PicksFollowReads(a: Job, b: Job, s: Salt, t: Salt)
    requires SameButCache(a, b) && InStep(Some(s), Some(t)) && SameReads(a, b, s, t)
    ensures FillPlans(a, s) == FillPlans(b, t) && InStep(SerialFill(a, s), SerialFill(b, t))
  {
    PicksFollowSeeds(a, b, s, t, 128);
    MiddlesStayInStep(a, b, FirstHalfOf(a, s), FirstHalfOf(b, t));
    FillIsHalves(a, s);
    FillIsHalves(b, t);
    var u, v := Middled(a, s), Middled(b, t);
    if u.Some? {
      PicksFollowSeeds(a, b, u.value, v.value, 128);
    }
  }
}
