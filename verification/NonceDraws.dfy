/** The three per-nonce draws a hash takes from the generator its fill leaves behind. */
module NonceDraws {
  import opened Iteration
  import opened Words
  import opened Words64
  import opened Cipher
  import opened HC128
  import opened Sampler
  import opened PickLaws

  datatype Draws = Draws(xx: nat, yy: nat, divisor: nat, iters: nat)

  /** Draws of 5, 5 and 64, one after the other; None when one of them never returns. */
  ghost function DrawThree(next: Gen -> Gen, r: Rng): (t: Option<(nat, nat, nat)>)
    ensures t.Some? ==> t.value.0 <= 4 && t.value.1 <= 4 && t.value.2 <= 63
  {
    var x := Draw(next, r, 5);
    if x.None? then None
    else
      var y := Draw(next, x.value.0, 5);
      if y.None? then None
      else
        var z := Draw(next, y.value.0, 64);
        if z.None? then None else Some((x.value.1, y.value.1, z.value.1))
  }

  function Made(x: nat, y: nat, z: nat, height: nat): Draws {
    Draws(4 + x, 4 + y, 1 + z, (height + 1) % WORD64 % (1 + z))
  }

  ghost function Drawn(next: Gen -> Gen, g: Gen, height: nat): Option<Draws> {
    var t := DrawThree(next, Rng(next(g), 0));
    if t.None? then None else Some(Made(t.value.0, t.value.1, t.value.2, height))
  }

  /** AES rounds of a hash. */
  function Steps(d: Draws): int {
    (d.xx - 1) * d.yy + d.iters
  }

  lemma StepsInRange(xx: nat, yy: nat, p: nat)
    requires 4 <= xx <= 8 && 4 <= yy <= 8 && p == (xx - 1) * yy
    ensures 12 <= p <= 56 && (p == 12 <==> xx == yy == 4) && (p == 56 <==> xx == yy == 8)
  {
    assert p == if xx == 4 then 3 * yy else if xx == 5 then 4 * yy else if xx == 6 then 5 * yy
                else if xx == 7 then 6 * yy else 7 * yy;
  }

  lemma RemainderOf63(n: nat, d: nat)
    requires 1 <= d <= 64
    ensures n % d <= 63 && (n % d == 63 <==> d == 64 && n % 64 == 63)
  {
  }

  lemma NextHeight(height: nat)
    requires height < WORD64
    ensures (height + 1) % WORD64 % 64 == 63 <==> height % 64 == 62
  {
  }

  lemma MadeInRange(x: nat, y: nat, z: nat, height: nat, d: Draws)
    requires x <= 4 && y <= 4 && z <= 63 && height < WORD64 && d == Made(x, y, z, height)
    ensures InRange(d, height)
  {
    RemainderOf63((height + 1) % WORD64, d.divisor);
    NextHeight(height);
    StepsInRange(d.xx, d.yy, (d.xx - 1) * d.yy);
  }

  /** The ranges consensus relies on, with the heights and draws that reach their ends. */
  predicate InRange(d: Draws, height: nat) {
    && 4 <= d.xx <= 8 && 4 <= d.yy <= 8 && 1 <= d.divisor <= 64 && 0 <= d.iters <= 63
    && (d.iters == 63 <==> d.divisor == 64 && height % 64 == 62)
    && 12 <= Steps(d) <= 119
    && (Steps(d) == 12 <==> d.xx == d.yy == 4 && d.iters == 0)
    && (Steps(d) == 119 <==> d.xx == d.yy == 8 && d.divisor == 64 && height % 64 == 62)
  }

  lemma DrawsInRange(next: Gen -> Gen, g: Gen, height: nat)
    requires height < WORD64 && Drawn(next, g, height).Some?
    ensures InRange(Drawn(next, g, height).value, height)
  {
    var t := DrawThree(next, Rng(next(g), 0)).value;
    MadeInRange(t.0, t.1, t.2, height, Made(t.0, t.1, t.2, height));
  }

  method DrawThreeCode(state: State, ghost next: Gen -> Gen, ghost start: Rng) returns (x: nat, y: nat, z: nat)
    requires At(state, 0, start) && IsNext(next) && DrawThree(next, start).Some?
    modifies state, state.P, state.Q, state.keystream
    ensures DrawThree(next, start) == Some((x, y, z))
  {
    var ki;
    ghost var r;
    x, ki, r := U32(state, 0, 5, next, start);
    y, ki, r := U32(state, ki, 5, next, r);
    z, ki, r := U32(state, ki, 64, next, r);
  }

  /** replay_draws: on a copy, so the fill's generator stays where it was. */
  method ReplayDraws(after: State, height: nat, ghost next: Gen -> Gen) returns (d: Draws)
    requires after.Valid() && IsNext(next) && height < WORD64 && Drawn(next, after.Value(), height).Some?
    ensures Drawn(next, after.Value(), height) == Some(d) && InRange(d, height)
  {
    ghost var g := after.Value();
    DrawsInRange(next, g, height);
    var state := new State.Copy(after);
    state.NextKeys();
    var x, y, z := DrawThreeCode(state, next, Rng(next(g), 0));
    d := Made(x, y, z, height);
  }

  // ----- the draws, word by word -----

  lemma SmallFits()
    ensures Fits(5, 3) && Fits(64, 6) && Pow2(3) == 8 && Pow2(6) == 64
  {
  }

  lemma ThreeLaw(next: Gen -> Gen, r: Rng, s: Rng, t: Rng, u: Rng, x: nat, y: nat, z: nat)
    requires Draw(next, r, 5) == Some((s, x)) && Draw(next, s, 5) == Some((t, y)) && Draw(next, t, 64) == Some((u, z))
    ensures DrawThree(next, r) == Some((x, y, z))
  {
  }

  /** A draw of max by the low b bits; p is 2^b. */
  lemma DrawBy(next: Gen -> Gen, r: Rng, max: Word, b: nat, p: nat, n: nat)
    requires Fits(max, b) && p == Pow2(b) && FirstBelow(next, r, max, b, n)
    ensures Draw(next, r, max) == Some((Skip(next, r, n + 1), WordOf(next, r, n) % p))
  {
    DrawLaw(next, r, max, b, n);
  }

  /** Three draws from a fresh block: the low three bits of the first two accepted words, the
      low six of the third, and the remainder of the next height. */
  lemma DrawnLaw(next: Gen -> Gen, g: Gen, height: nat, rs: seq<Rng>, ns: seq<nat>)
    requires |rs| == |ns| == 3 && rs[0] == Rng(next(g), 0)
    requires rs[1] == Skip(next, rs[0], ns[0] + 1) && rs[2] == Skip(next, rs[1], ns[1] + 1)
    requires FirstBelow(next, rs[0], 5, 3, ns[0]) && FirstBelow(next, rs[1], 5, 3, ns[1])
    requires FirstBelow(next, rs[2], 64, 6, ns[2])
    ensures var x, y, z := WordOf(next, rs[0], ns[0]) % 8, WordOf(next, rs[1], ns[1]) % 8,
                           WordOf(next, rs[2], ns[2]) % 64;
      Drawn(next, g, height)
      == Some(Draws(4 + x, 4 + y, 1 + z, (height + 1) % 0x1_0000_0000_0000_0000 % (1 + z)))
  {
    SmallFits();
    DrawBy(next, rs[0], 5, 3, 8, ns[0]);
    DrawBy(next, rs[1], 5, 3, 8, ns[1]);
    DrawBy(next, rs[2], 64, 6, 64, ns[2]);
    ThreeLaw(next, rs[0], rs[1], rs[2], Skip(next, rs[2], ns[2] + 1),
             WordOf(next, rs[0], ns[0]) % 8, WordOf(next, rs[1], ns[1]) % 8, WordOf(next, rs[2], ns[2]) % 64);
  }
}
