/** The per-nonce chain salt: what each fill computes, as a function of the generator,
    the block cache and the rules. None stands for a draw that never returns. */
module ChainFill {
  import opened Words
  import opened Iteration
  import opened Fission
  import opened Cipher
  import opened Stream
  import opened Sampler
  import opened MulHigh

  const WINDOW: nat := 100000
  const HALF: nat := 131072

  datatype CacheEntry = CacheEntry(hash: seq<Byte>, timestamp: seq<Byte>, diffLo: seq<Byte>, coins: seq<Byte>) {
    predicate Ok() {
      |hash| == 32 && |timestamp| == 8 && |diffLo| == 8 && |coins| == 8
    }
  }

  /** One block of the chain; the three 64-bit fields are held as their bytes in memory. */
  type Entry = e: CacheEntry | e.Ok() witness NoEntry()

  function NoEntry(): (e: CacheEntry)
    ensures e.Ok()
  {
    CacheEntry(Zeros(32), Zeros(8), Zeros(8), Zeros(8))
  }

  type Cache = c: seq<Entry> | 0 < |c| < WORD witness [NoEntry()]

  /** Which fill runs: v5 draws its indices directly; v6 through a selector or, with drawB
      and odds 256, through a multiply-high; v5 and the daemon's v6 reseed at the midpoint. */
  datatype RuleSet = RuleSet(direct: bool, drawB: bool, odds: nat, reseedK: nat, hashWords: bool, midpoint: bool)

  type Rules = r: RuleSet | r.reseedK > 0 witness RuleSet(true, false, 0, 1, false, true)

  /** NextKeys, Init, the rules and the block cache. */
  datatype Job = Job(next: Gen -> Gen, init: (seq<Byte>, seq<Byte>, Gen) -> Gen, rules: Rules, cache: Cache)

  // ----- picks -----

  /** The selector chooses between the whole chain and its last blocks. */
  ghost function PickByOdds(next: Gen -> Gen, odds: nat, height: Word, r: Rng): Option<(Rng, nat)> {
    var selector := Draw(next, r, 256);
    if selector.None? then None
    else if selector.value.1 < odds then Draw(next, selector.value.0, height)
    else PickRecent(next, height, selector.value.0)
  }

  ghost function PickRecent(next: Gen -> Gen, height: Word, r: Rng): Option<(Rng, nat)> {
    var window: Word := if height > WINDOW then WINDOW else height;
    var d := Draw(next, r, window);
    if d.None? then None else Some((d.value.0, height - window + d.value.1))
  }

  ghost function PickBelow(next: Gen -> Gen, rules: Rules, height: Word, r: Rng): Option<(Rng, nat)> {
    if rules.direct then
      Draw(next, r, height)
    else if rules.drawB && rules.odds >= 256 then
      Some((Drop(next, r), High(Peek(next, r), height)))
    else PickByOdds(next, rules.odds, height, r)
  }

  /** One index, drawn from nothing but the generator, the rules and the cache's size. */
  ghost function Pick(job: Job, r: Rng): Option<(Rng, nat)> {
    PickBelow(job.next, job.rules, |job.cache|, r)
  }

  ghost function Picker(job: Job): Rng -> Option<(Rng, nat)> {
    r => Pick(job, r)
  }

  type Quad = s: seq<nat> | |s| == 4 witness [0, 0, 0, 0]

  type Pad = s: seq<Word> | |s| == 16 witness Zeros(16)

  /** What one message needs from the generator: four indices and a block of keystream. */
  datatype Plan = Plan(idx: Quad, ks: Pad)

  ghost function PlanMessage(job: Job, r: Rng): Option<(Rng, Plan)> {
    var p := Planned<Rng, nat>(Picker(job), r, 4);
    if p.None? then None
    else
      var g := job.next(p.value.0.g);
      Some((Rng(g, p.value.0.ki), Plan(p.value.1, g.ks)))
  }

  ghost function Planner(job: Job): Rng -> Option<(Rng, Plan)> {
    r => PlanMessage(job, r)
  }

  // ----- messages -----

  /** The cache entry at i; picks never leave the cache. */
  function Lookup(cache: Cache, i: nat): Entry {
    if i < |cache| then cache[i] else NoEntry()
  }

  /** The eight bytes pick j of message `count` reads from a block. */
  function Field(rules: Rules, e: Entry, j: nat, count: nat): (f: seq<Byte>)
    ensures |f| == 8
  {
    if rules.hashWords then
      var w := (j + count) % 4;
      e.hash[8 * w..8 * w + 8]
    else if j == 1 then e.timestamp
    else if j == 2 then e.diffLo
    else e.coins
  }

  function Le64(n: nat): (b: seq<Byte>)
    ensures |b| == 8
  {
    seq(8, k requires 0 <= k < 8 => LeByte(n, k))
  }

  function Message(rules: Rules, cache: Cache, idx: Quad, count: nat): (m: seq<Byte>)
    ensures |m| == 64
  {
    Lookup(cache, idx[0]).hash
    + Field(rules, Lookup(cache, idx[1]), 1, count)
    + Field(rules, Lookup(cache, idx[2]), 2, count)
    + Field(rules, Lookup(cache, idx[3]), 3, count)
    + Le64(count)
  }

  /** The bytes produced, the last message, and how many messages are done. */
  datatype Page = Page(out: seq<Byte>, msg: seq<Byte>, count: nat) {
    predicate Ok() {
      |out| == 64 * count && |msg| == 64
    }
  }

  function Emit(job: Job, page: Page, plan: Plan): (p: Page)
    ensures page.Ok() ==> p.Ok()
    ensures page.out <= p.out && p.count == page.count + 1
  {
    var m := Message(job.rules, job.cache, plan.idx, page.count);
    Page(page.out + XorPad(m, plan.ks), m, page.count + 1)
  }

  function Emitter(job: Job): (Page, Plan) -> Page {
    (page, plan) => Emit(job, page, plan)
  }

  // ----- blocks of sixteen messages -----

  /** A fill in progress: generator and cursor, and what it has written. */
  datatype Salt = Salt(r: Rng, page: Page)

  /** The keystream block every sixteen-message block begins with; the cursor stays. */
  function Opened(job: Job, r: Rng): Rng {
    Rng(job.next(r.g), r.ki)
  }

  /** Sixteen messages one after the other. */
  ghost function SerialBlock(job: Job, s: Salt): Option<Salt> {
    var f := Fused(Planner(job), Emitter(job), Opened(job, s.r), s.page, 16);
    if f.None? then None else Some(Salt(f.value.0, f.value.1))
  }

  /** All indices and keystream first, then all gathers. */
  ghost function RunAheadBlock(job: Job, s: Salt): Option<Salt> {
    var p := Planned(Planner(job), Opened(job, s.r), 16);
    if p.None? then None else Some(Salt(p.value.0, EmitAll(Emitter(job), s.page, p.value.1)))
  }

  lemma RunAheadBlockIsSerial(job: Job, s: Salt)
    ensures RunAheadBlock(job, s) == SerialBlock(job, s)
  {
    FissionLaw(Planner(job), Emitter(job), Opened(job, s.r), s.page, 16);
  }

  // ----- reseeding -----

  /** Sixteen bytes of the output; reads never leave it. */
  function Slice16(out: seq<Byte>, at: int): (b: seq<Byte>)
    ensures |b| == 16
  {
    if 0 <= at && at + 16 <= |out| then out[at..at + 16] else Zeros(16)
  }

  /** The key and IV a reseed takes when it draws offsets a and b. */
  function IvAt(page: Page, a: nat): seq<Byte> {
    Slice16(page.out, |page.out| - 512 + a)
  }

  function KeyAt(page: Page, b: nat): seq<Byte> {
    Slice16(page.out, |page.out| - 1024 + b)
  }

  predicate ReseedDue(job: Job, page: Page) {
    page.count / 16 % job.rules.reseedK == 0
  }

  ghost function Reseed(job: Job, s: Salt): Option<Salt> {
    if !ReseedDue(job, s.page) then Some(s)
    else
      var a := Draw(job.next, s.r, 496);
      if a.None? then None
      else
        var b := Draw(job.next, a.value.0, 496);
        if b.None? then None
        else
          var g := job.init(KeyAt(s.page, b.value.1), IvAt(s.page, a.value.1), b.value.0.g);
          Some(s.(r := Rng(g, b.value.0.ki)))
  }

  /** Four draws over the first half of the output, of which only the last one's sixteen
      bytes survive in the message; the rest of it is left over from the last message. */
  function MidMessage(page: Page, x: nat): (m: seq<Byte>)
    ensures |m| == 64
  {
    Slice16(page.out, |page.out| - HALF + x) + if |page.msg| == 64 then page.msg[16..] else Zeros(48)
  }

  ghost function HalfPicker(next: Gen -> Gen): Rng -> Option<(Rng, nat)> {
    r => Draw(next, r, HALF - 16)
  }

  /** The midpoint reseed: key and IV from a scratch block that is later overwritten. */
  ghost function Midpoint(job: Job, s: Salt): Option<Salt> {
    var p := Planned<Rng, nat>(HalfPicker(job.next), s.r, 4);
    if p.None? then None
    else
      var m := MidMessage(s.page, p.value.1[3]);
      var g := job.next(p.value.0.g);
      var scratch := XorPad(m, g.ks);
      Some(Salt(Rng(job.init(scratch[..16], scratch[16..32], g), p.value.0.ki), s.page.(msg := m)))
  }

  // ----- whole fills -----

  ghost function SerialRound(job: Job, s: Salt): Option<Salt> {
    Then(SerialBlock(job, s), t => Reseed(job, t))
  }

  ghost function SerialRounds(job: Job): Salt -> Option<Salt> {
    s => SerialRound(job, s)
  }

  ghost function MaybeMidpoint(job: Job, s: Salt): Option<Salt> {
    if job.rules.midpoint then Midpoint(job, s) else Some(s)
  }

  ghost function Middle(job: Job): Salt -> Option<Salt> {
    s => MaybeMidpoint(job, s)
  }

  /** chain_fill_v5, chain_fill_v6 and the daemon's reference loop: 128 blocks, the midpoint
      reseed where the rules have one, 128 blocks. */
  ghost function SerialFill(job: Job, s: Salt): Option<Salt> {
    TwoLoops(SerialRounds(job), Middle(job), s, 128, 128)
  }

  ghost function RunAheadRound(job: Job, s: Salt): Option<Salt> {
    var t := Then(RunAheadBlock(job, s), t => Reseed(job, t));
    if t.Some? && job.rules.midpoint && t.value.page.count == 2048 then Midpoint(job, t.value) else t
  }

  ghost function RunAheadRounds(job: Job): Salt -> Option<Salt> {
    s => RunAheadRound(job, s)
  }

  /** chain_fill_v6_run and the daemon's run-ahead loop: one loop of 256 blocks. */
  ghost function RunAheadFill(job: Job, s: Salt): Option<Salt> {
    Repeat(RunAheadRounds(job), s, 256)
  }
}
