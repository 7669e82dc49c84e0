/** chain_fill: one salt per nonce. */
module NonceFill {
  import opened Words
  import opened Iteration
  import opened Cipher
  import opened HC128
  import opened Orbits
  import opened OneShot
  import opened Reverse
  import opened Words64
  import opened ChainFill
  import opened FillCode
  import opened NonceSeed

  /** The g_fill_ settings of a generation. */
  function RulesOf(gen: int): Rules {
    RuleSet(
      gen == 5,
      gen == 15,
      if gen == 11 || gen == 13 || gen == 14 || gen == 15 then 256 else 13,
      if gen == 14 || gen == 15 then 16 else 1,
      gen == 14 || gen == 15,
      gen == 5)
  }

  /** What the settings decide: which generations draw directly and pass a midpoint, scale one
      word per pick, ever read the window, reseed after which blocks, and read hash words. */
  lemma GenerationLaw(gen: int, selector: Word, block: nat)
    ensures var rules := RulesOf(gen);
      && (rules.direct <==> gen == 5) && (rules.midpoint <==> gen == 5)
      && (rules.drawB && rules.odds >= 256 <==> gen == 15)
      && (selector % 256 < rules.odds <==> gen in {11, 13, 14, 15} || selector % 256 <= 12)
      && (block % rules.reseedK == 0 <==> gen in {14, 15} ==> block % 16 == 0)
      && (rules.hashWords <==> gen in {14, 15})
  {
  }

  /** A fill over HC-128 itself. */
  function Hc128Job(rules: Rules, cache: Cache): Job {
    var init := (key: seq<Byte>, iv: seq<Byte>, g: Gen) =>
      if |key| == |iv| == 16 then Init(key, iv, g.ks) else g;
    Job(NextKeys, init, rules, cache)
  }

  /** The generator a fill starts from: initialized, and one block drawn. */
  function Seeded(seed: seq<Byte>): Gen
    requires |seed| == 32
  {
    NextKeys(Init(seed[..16], seed[16..], Zeros(16)))
  }

  lemma SeedingIgnoresBuffer(seed: seq<Byte>, ks: seq<Word>)
    requires |seed| == 32 && |ks| == 16
    ensures NextKeys(Init(seed[..16], seed[16..], ks)) == Seeded(seed)
  {
    InitIgnoresBuffer(seed[..16], seed[16..], ks, Zeros(16));
    BlocksIgnoreBuffer(Init(seed[..16], seed[16..], ks), Init(seed[..16], seed[16..], Zeros(16)));
  }

  method SeedState(seed: seq<Byte>) returns (state: State)
    requires |seed| == 32
    ensures fresh(state) && fresh(state.P) && fresh(state.Q) && fresh(state.keystream)
    ensures state.Valid() && state.Value() == Seeded(seed)
  {
    state := new State();
    SeedingIgnoresBuffer(seed, state.keystream[..]);
    state.Init(seed[..16], seed[16..]);
    state.NextKeys();
  }

  /** The salt depends on the nonce, the generation and the cache: not on whether the fill runs
      ahead, and not on what the generator's memory or the output buffer held before. */
  method FillSalt(gen: int, cache: Cache, gid: Word64, runAhead: bool, out: array<Byte>)
    requires out.Length == 262144
    requires SerialFill(Hc128Job(RulesOf(gen), cache), Start(Seeded(SeedOf(gid)))).Some?
    modifies out
    ensures out[..] == SerialFill(Hc128Job(RulesOf(gen), cache), Start(Seeded(SeedOf(gid)))).value.page.out
  {
    var job := Hc128Job(RulesOf(gen), cache);
    var seed := DeriveSeed(gid);
    var state := SeedState(seed);
    var ki;
    if gen == 5 {
      ki := FillTwoLoops(job, state, out, Seeded(seed));
    } else if runAhead {
      ki := FillRunAhead(job, state, out, Seeded(seed));
    } else {
      ki := FillOneLoop(job, state, out, Seeded(seed));
    }
  }

  lemma DifferSomewhere(a: Word64, b: Word64)
    requires a != b
    ensures SeedOf(a)[..16] != SeedOf(b)[..16] || SeedOf(a)[16..] != SeedOf(b)[16..]
  {
    var s, t := SeedOf(a), SeedOf(b);
    assert s == s[..16] + s[16..] && t == t[..16] + t[16..];
    if s == t {
      SeedsDiffer(a, b);
    }
  }

  lemma AfterFirstBlock(g: Gen, n: nat)
    ensures Iterate(Stepper(Key), g, 16 + n) == Iterate(Stepper(Key), NextKeys(g), n)
  {
    IterateAdd(Stepper(Key), g, 16, n);
  }

  /** The generators of two different nonces, run equally far, are never in the same state. */
  lemma NoncesNeverMeet(a: Word64, b: Word64, n: nat)
    requires a != b
    ensures !SameTables(Iterate(Stepper(Key), Seeded(SeedOf(a)), n), Iterate(Stepper(Key), Seeded(SeedOf(b)), n))
  {
    var s, t := SeedOf(a), SeedOf(b);
    DifferSomewhere(a, b);
    SeedsNeverMeet(s[..16], s[16..], Zeros(16), t[..16], t[16..], Zeros(16), 16 + n);
    AfterFirstBlock(Init(s[..16], s[16..], Zeros(16)), n);
    AfterFirstBlock(Init(t[..16], t[16..], Zeros(16)), n);
  }
}
