/** Buffer, work-group and launch sizing of the GPU bench. */
module Sizing {
  import opened Iteration

  const MAXBUF: nat := 4

  datatype Sizing = Sizing(nbuf: nat, perBuf: nat, nonces: nat, lws: nat, step: nat)

  predicate Whole(n: nat, d: nat) {
    d > 0 && n % d == 0
  }

  predicate Within(nbuf: nat, perBuf: nat, pad: nat, budget: nat, limit: nat) {
    perBuf * pad <= limit && nbuf * (perBuf * pad) <= budget
  }

  /** The most pads per buffer that stay within the limit and the budget. */
  predicate Fullest(nbuf: nat, perBuf: nat, pad: nat, budget: nat, limit: nat) {
    Within(nbuf, perBuf, pad, budget, limit) && !Within(nbuf, perBuf + 1, pad, budget, limit)
  }

  /** The largest of 64, 32, .., 1 of which four fit; 1 when not even four of 1 do. */
  predicate LargestGroup(lws: nat, pads: nat) {
    lws in {1, 2, 4, 8, 16, 32, 64} && (lws == 1 || 4 * lws <= pads) && (lws == 64 || pads < 8 * lws)
  }

  /** Whole work groups, as many as the pads allow, in at most eight steps and no longer ones. */
  predicate Divided(pads: nat, nonces: nat, lws: nat, step: nat) {
    && LargestGroup(lws, pads) && 0 < nonces <= pads < nonces + lws && Whole(nonces, lws)
    && lws <= step && Whole(step, lws) && 8 * (step - lws) < nonces <= 8 * step
  }

  predicate Sound(s: Sizing, budget: nat, limit: nat, pad: nat) {
    1 <= s.nbuf <= MAXBUF && Fullest(s.nbuf, s.perBuf, pad, budget, limit)
    && Divided(s.nbuf * s.perBuf, s.nonces, s.lws, s.step)
  }

  // ----- division -----

  lemma MultipleOf(q: nat, d: nat)
    requires d > 0
    ensures q * d % d == 0 && q * d / d == q
  {
    var x := q * d;
    var e := q - x / d;
    assert e * d == x % d;
    assert e >= 1 ==> e * d >= d;
    assert e <= -1 ==> e * d <= -1 * d;
  }

  lemma SumIsWhole(a: nat, b: nat, d: nat)
    requires Whole(a, d) && Whole(b, d)
    ensures Whole(a + b, d)
  {
    var p, q := a / d, b / d;
    assert a == p * d && b == q * d;
    assert (p + q) * d == a + b;
    MultipleOf(p + q, d);
  }

  lemma RestIsWhole(a: nat, b: nat, d: nat)
    requires Whole(a, d) && Whole(a + b, d)
    ensures Whole(b, d)
  {
    var p, q := a / d, (a + b) / d;
    assert a == p * d && a + b == q * d;
    assert (q - p) * d == b;
    assert q - p >= 0 by {
      assert q - p <= -1 ==> (q - p) * d <= -1 * d;
    }
    MultipleOf(q - p, d);
  }

  // ----- sizes -----

  /** The smallest number of buffers whose share of the budget is within the limit, or MAXBUF. */
  ghost predicate FewestBuffers(nbuf: nat, budget: nat, limit: nat) {
    1 <= nbuf <= MAXBUF && (nbuf == MAXBUF || budget / nbuf <= limit) && forall n | 1 <= n < nbuf :: budget / n > limit
  }

  method CountBuffers(budget: nat, limit: nat) returns (nbuf: nat)
    ensures FewestBuffers(nbuf, budget, limit)
  {
    nbuf := 1;
    while nbuf < MAXBUF && budget / nbuf > limit
      invariant 1 <= nbuf <= MAXBUF && forall n | 1 <= n < nbuf :: budget / n > limit
    {
      nbuf := nbuf + 1;
    }
  }

  /** 64, halved until four work groups fit or nothing is left to halve. */
  method GroupSize(nonces: nat) returns (lws: nat)
    requires nonces > 0
    ensures LargestGroup(lws, nonces) && lws <= nonces
  {
    lws := 64;
    while lws > 1 && nonces < lws * 4
      invariant lws in {1, 2, 4, 8, 16, 32, 64} && (lws == 64 || nonces < 8 * lws)
    {
      lws := lws / 2;
    }
  }

  lemma WholeGroups(n: nat, lws: nat, q: nat)
    requires 1 <= lws <= n && q == n / lws
    ensures 0 < q * lws <= n < q * lws + lws && Whole(q * lws, lws) && q * lws / lws == q && q > 0
  {
    assert n == q * lws + n % lws;
    assert q <= 0 ==> q * lws <= 0;
    MultipleOf(q, lws);
  }

  lemma EightSteps(groups: nat, lws: nat, k: nat)
    requires groups > 0 && lws > 0 && k == (groups + 7) / 8
    ensures lws <= lws * k && Whole(lws * k, lws) && groups * lws <= 8 * (lws * k)
    ensures 8 * (lws * k - lws) < groups * lws
  {
    assert k >= 1 && 8 * (k - 1) < groups <= 8 * k;
    MultipleOf(k, lws);
    assert lws * k == k * lws;
    assert groups * lws <= 8 * k * lws;
    assert 8 * (k - 1) * lws < groups * lws;
  }

  lemma PadsFit(chunk: nat, pad: nat, pads: nat)
    requires pad > 0 && pads == chunk / pad
    ensures pads * pad <= chunk < (pads + 1) * pad && (pads < 1 <==> chunk < pad)
  {
    assert chunk == pads * pad + chunk % pad;
    assert pads >= 1 ==> pads * pad >= pad;
  }

  lemma SharesFit(budget: nat, nbuf: nat, x: nat)
    requires nbuf > 0 && x <= budget / nbuf
    ensures nbuf * x <= budget
  {
    assert nbuf * x <= nbuf * (budget / nbuf);
  }

  lemma MoreIsTooMuch(budget: nat, nbuf: nat, x: nat)
    requires nbuf > 0 && x > budget / nbuf
    ensures nbuf * x > budget
  {
    assert nbuf * x >= nbuf * (budget / nbuf + 1);
  }

  lemma BufferFits(budget: nat, limit: nat, pad: nat, nbuf: nat, share: nat, chunk: nat, pads: nat)
    requires pad > 0 && nbuf > 0 && share == budget / nbuf && pads == chunk / pad
    requires chunk == if share > limit then limit else share
    ensures Fullest(nbuf, pads, pad, budget, limit) && (pads < 1 <==> limit < pad || share < pad)
  {
    PadsFit(chunk, pad, pads);
    SharesFit(budget, nbuf, pads * pad);
    if chunk == share {
      MoreIsTooMuch(budget, nbuf, (pads + 1) * pad);
    }
  }

  /** How many pads a buffer holds, within its share of the budget and the allocation limit. */
  method PerBuffer(budget: nat, limit: nat, pad: nat, nbuf: nat) returns (perBuf: nat)
    requires pad > 0 && nbuf > 0
    ensures Fullest(nbuf, perBuf, pad, budget, limit)
    ensures perBuf < 1 <==> limit < pad || budget / nbuf < pad
  {
    var share := budget / nbuf;
    var chunk := share;
    if chunk > limit {
      chunk := limit;
    }
    perBuf := chunk / pad;
    BufferFits(budget, limit, pad, nbuf, share, chunk, perBuf);
  }

  /** Work-group size, nonces and step for so many pads: every guard of the source holds, and
      its "no work" guard never fires. */
  method Divide(pads: nat) returns (nonces: nat, lws: nat, step: nat)
    requires pads > 0
    ensures Divided(pads, nonces, lws, step)
  {
    lws := GroupSize(pads);
    WholeGroups(pads, lws, pads / lws);
    nonces := pads / lws * lws;
    EightSteps(pads / lws, lws, (nonces / lws + 7) / 8);
    step := lws * ((nonces / lws + 7) / 8);
    if step < lws {
      step := lws;
    }
  }

  /** None exactly when a pad does not fit a buffer. */
  method Size(budget: nat, limit: nat, pad: nat) returns (r: Option<Sizing>)
    requires pad > 0
    ensures r.Some? ==> FewestBuffers(r.value.nbuf, budget, limit) && Sound(r.value, budget, limit, pad)
    ensures exists n :: FewestBuffers(n, budget, limit) && (r.None? <==> limit < pad || budget / n < pad)
  {
    var nbuf := CountBuffers(budget, limit);
    var perBuf := PerBuffer(budget, limit, pad, nbuf);
    if perBuf < 1 {
      return None;
    }
    assert nbuf * perBuf > 0;
    var nonces, lws, step := Divide(nbuf * perBuf);
    return Some(Sizing(nbuf, perBuf, nonces, lws, step));
  }

  // ----- launches -----

  /** Pieces (offset, size), back to back from 0 to n. */
  predicate Covers(pieces: seq<(nat, nat)>, n: nat) {
    if |pieces| == 0 then n == 0
    else
      var last := pieces[|pieces| - 1];
      last.1 > 0 && last.0 + last.1 == n && Covers(pieces[..|pieces| - 1], last.0)
  }

  /** Whole work groups, of full length but for the last piece. */
  predicate InGroups(p: (nat, nat), lws: nat, step: nat, nonces: nat) {
    Whole(p.0, lws) && Whole(p.1, lws) && p.1 <= step && (p.1 == step || p.0 + p.1 == nonces)
  }

  lemma RoomLeft(rest: nat, used: nat, step: nat)
    requires 0 < rest <= (8 - used) * step
    ensures used < 8 && (8 - (used + 1)) * step == (8 - used) * step - step && (8 - (used + 1)) * step >= 0
  {
    assert used >= 8 ==> (8 - used) * step <= 0;
  }

  /** The launch loop: at most eight pieces, whole work groups each, nothing missed or repeated. */
  method Launches(nonces: nat, lws: nat, step: nat) returns (pieces: seq<(nat, nat)>)
    requires lws <= step && Whole(step, lws) && Whole(nonces, lws) && nonces <= 8 * step
    ensures Covers(pieces, nonces) && |pieces| <= 8
    ensures forall p | p in pieces :: InGroups(p, lws, step, nonces)
  {
    pieces := [];
    var off := 0;
    ghost var done := 0;
    while off < nonces
      invariant done == if off < nonces then off else nonces
      invariant |pieces| <= 8 && nonces - done <= (8 - |pieces|) * step
      invariant Covers(pieces, done) && Whole(done, lws)
      invariant forall p | p in pieces :: InGroups(p, lws, step, nonces)
    {
      var n := nonces - off;
      RoomLeft(n, |pieces|, step);
      RestIsWhole(off, n, lws);
      if n > step {
        n := step;
      }
      SumIsWhole(off, n, lws);
      assert (pieces + [(off, n)])[..|pieces|] == pieces;
      pieces := pieces + [(off, n)];
      done := off + n;
      off := off + step;
    }
  }
}
