/** The bytes of streams, messages and seeds, one by one. */
module ByteLaws {
  import opened Words
  import opened Bits
  import opened Iteration
  import opened Fission
  import opened Cipher
  import opened Stream
  import opened Sampler
  import opened ChainFill
  import opened FillLaws

  // ----- bytes of words -----

  /** Byte k of a number, lowest first. */
  function ByteOf(w: nat, k: nat): nat {
    w / Pow2(8 * k) % 256
  }

  lemma {:induction false} LeByteIs(w: nat, k: nat)
    ensures LeByte(w, k) == ByteOf(w, k)
    decreases k
  {
    if k > 0 {
      LeByteIs(w / 0x100, k - 1);
      Pow2Of8();
      Pow2Adds(8, 8 * (k - 1));
      DivideTwice(w, 0x100, Pow2(8 * (k - 1)));
    }
  }

  /** c is m xored with the sixteen words of ks, byte by byte. */
  predicate Xored(m: seq<Byte>, ks: seq<Word>, c: seq<Byte>) {
    |ks| == 16 && |m| <= 64 && |c| == |m|
    && forall i | 0 <= i < |m| :: c[i] == Xor(m[i], ByteOf(ks[i / 4], i % 4))
  }

  lemma PadLaw(m: seq<Byte>, ks: seq<Word>)
    requires |m| <= 64 && |ks| == 16
    ensures Xored(m, ks, XorPad(m, ks))
  {
    forall i | 0 <= i < |m| ensures XorPad(m, ks)[i] == Xor(m[i], ByteOf(ks[i / 4], i % 4)) {
      LeByteIs(ks[i / 4], i % 4);
      XorIsByte(m[i], LeByte(ks[i / 4], i % 4));
    }
  }

  // ----- the stream -----

  lemma {:induction false} StreamLaw(next: Gen -> Gen, g: Gen, i: nat)
    ensures StreamByte(next, g, i) == ByteOf(Iterate<Gen>(next, g, i / 64 + 1).ks[i % 64 / 4], i % 64 % 4)
    decreases i
  {
    if i < 64 {
      assert Iterate<Gen>(next, g, 1) == Iterate<Gen>(next, next(g), 0);
      LeByteIs(next(g).ks[i / 4], i % 4);
    } else {
      StreamLaw(next, next(g), i - 64);
      assert (i - 64) / 64 + 1 == i / 64 && (i - 64) % 64 == i % 64;
    }
  }

  /** Byte i of a ciphertext: message byte i xor byte i mod 4 of word i mod 64 / 4 of the
      block number i / 64 + 1 after the state. */
  lemma CipherByteLaw(next: Gen -> Gen, g: Gen, message: seq<Byte>, i: nat)
    requires i < |message|
    ensures Encrypted(next, g, message)[i]
         == Xor(message[i], ByteOf(Iterate<Gen>(next, g, i / 64 + 1).ks[i % 64 / 4], i % 64 % 4))
  {
    EncryptedByte(next, g, message, i);
    StreamLaw(next, g, i);
    XorIsByte(message[i], StreamByte(next, g, i));
  }

  // ----- a message -----

  /** Where byte k of field j comes from. */
  function FieldByte(rules: Rules, e: Entry, j: nat, count: nat, k: nat): Byte
    requires k < 8
  {
    if rules.hashWords then e.hash[8 * ((j + count) % 4) + k]
    else if j == 1 then e.timestamp[k]
    else if j == 2 then e.diffLo[k]
    else e.coins[k]
  }

  /** m is message number `count` for the four blocks idx: a hash, three fields, the count. */
  ghost predicate IsMessage(rules: Rules, cache: Cache, idx: Quad, count: nat, m: seq<Byte>) {
    && |m| == 64 && (forall j | 0 <= j < 4 :: idx[j] < |cache|)
    && (forall i | 0 <= i < 32 :: m[i] == cache[idx[0]].hash[i])
    && (forall k: nat | k < 8 :: m[32 + k] == FieldByte(rules, cache[idx[1]], 1, count, k))
    && (forall k: nat | k < 8 :: m[40 + k] == FieldByte(rules, cache[idx[2]], 2, count, k))
    && (forall k: nat | k < 8 :: m[48 + k] == FieldByte(rules, cache[idx[3]], 3, count, k))
    && (forall k: nat | k < 8 :: m[56 + k] == ByteOf(count, k))
  }

  lemma FieldIs(rules: Rules, e: Entry, j: nat, count: nat, k: nat)
    requires 1 <= j <= 3 && k < 8
    ensures Field(rules, e, j, count)[k] == FieldByte(rules, e, j, count, k)
  {
  }

  lemma CountIs(count: nat, k: nat)
    requires k < 8
    ensures Le64(count)[k] == ByteOf(count, k)
  {
    LeByteIs(count, k);
  }

  lemma MessageLaw(rules: Rules, cache: Cache, idx: Quad, count: nat)
    requires forall j | 0 <= j < 4 :: idx[j] < |cache|
    ensures IsMessage(rules, cache, idx, count, Message(rules, cache, idx, count))
  {
    var m := Message(rules, cache, idx, count);
    forall k: nat | k < 8
      ensures m[32 + k] == FieldByte(rules, cache[idx[1]], 1, count, k)
           && m[40 + k] == FieldByte(rules, cache[idx[2]], 2, count, k)
           && m[48 + k] == FieldByte(rules, cache[idx[3]], 3, count, k) && m[56 + k] == ByteOf(count, k)
    {
      FieldIs(rules, cache[idx[1]], 1, count, k);
      FieldIs(rules, cache[idx[2]], 2, count, k);
      FieldIs(rules, cache[idx[3]], 3, count, k);
      CountIs(count, k);
    }
  }

  /** One message appends 64 bytes: that message, xored with the plan's block. */
  lemma EmitLaw(job: Job, page: Page, plan: Plan)
    requires forall j | 0 <= j < 4 :: plan.idx[j] < |job.cache|
    ensures var p := Emit(job, page, plan);
      && p.count == page.count + 1 && |p.out| == |page.out| + 64 && p.out[..|page.out|] == page.out
      && IsMessage(job.rules, job.cache, plan.idx, page.count, p.msg)
      && Xored(p.msg, plan.ks, p.out[|page.out|..])
  {
    MessageLaw(job.rules, job.cache, plan.idx, page.count);
    var m := Message(job.rules, job.cache, plan.idx, page.count);
    PadLaw(m, plan.ks);
    assert (page.out + XorPad(m, plan.ks))[|page.out|..] == XorPad(m, plan.ks);
  }

  /** A block of the fill: a keystream block is drawn with the cursor kept, and then sixteen
      messages are planned and emitted, each from where the last one left off. */
  lemma BlockLaw(job: Job, s: Salt, rs: seq<Rng>, plans: seq<Plan>, pages: seq<Page>)
    requires |plans| == 16 && |rs| == |pages| == 17
    requires rs[0] == Rng(job.next(s.r.g), s.r.ki) && pages[0] == s.page
    requires forall i | 0 <= i < 16 ::
      Planner(job)(rs[i]) == Some((rs[i + 1], plans[i])) && pages[i + 1] == Emitter(job)(pages[i], plans[i])
    ensures SerialBlock(job, s) == Some(Salt(rs[16], pages[16]))
  {
    FusedInOrder(Planner(job), Emitter(job), rs, plans, pages);
  }

  // ----- seeds -----

  /** A reseed after every reseedK-th block: two draws of 496, the first for the IV from the
      last 512 bytes, the second for the key from the 512 before them; the cursor goes on. */
  lemma ReseedLaw(job: Job, s: Salt, a: nat, ra: Rng, b: nat, rb: Rng)
    requires s.page.Ok() && s.page.count >= 16
    requires Draw(job.next, s.r, 496) == Some((ra, a)) && Draw(job.next, ra, 496) == Some((rb, b))
    ensures var n := |s.page.out|;
      && a <= 495 && b <= 495 && n >= 1024
      && Reseed(job, s)
         == if s.page.count / 16 % job.rules.reseedK != 0 then Some(s)
            else
              var key, iv := s.page.out[n - 1024 + b..n - 1008 + b], s.page.out[n - 512 + a..n - 496 + a];
              Some(s.(r := Rng(job.init(key, iv, rb.g), rb.ki)))
  {
    SeedsAreInBounds(s.page, a, b);
  }

  lemma MidBytes(page: Page, x: nat, m: seq<Byte>)
    requires page.Ok() && page.count == 2048 && x <= 131056 && |m| == 64
    requires m[..16] == page.out[x..x + 16] && m[16..] == page.msg[16..]
    ensures m == MidMessage(page, x)
  {
    assert m == m[..16] + m[16..];
  }

  lemma MidpointBy(job: Job, pick: Rng -> Option<(Rng, nat)>, s: Salt, x: Quad, rs: seq<Rng>, c: seq<Byte>)
    requires pick == HalfPicker(job.next) && |rs| == 5 && rs[0] == s.r
    requires forall i | 0 <= i < 4 :: pick(rs[i]) == Some((rs[i + 1], x[i]))
    requires Xored(MidMessage(s.page, x[3]), job.next(rs[4].g).ks, c)
    ensures Midpoint(job, s) == Some(Salt(Rng(job.init(c[..16], c[16..32], job.next(rs[4].g)), rs[4].ki),
                                          s.page.(msg := MidMessage(s.page, x[3]))))
  {
    PlannedInOrder<Rng, nat>(pick, rs, x);
    var m, ks := MidMessage(s.page, x[3]), job.next(rs[4].g).ks;
    PadLaw(m, ks);
    assert c == XorPad(m, ks);
  }

  /** The midpoint: of four draws the last says which sixteen bytes of the first half replace
      the start of the last message; that message, encrypted, is key and then IV. */
  lemma MidpointLaw(job: Job, s: Salt, x: Quad, rs: seq<Rng>, m: seq<Byte>, c: seq<Byte>)
    requires s.page.Ok() && s.page.count == 2048 && |rs| == 5 && rs[0] == s.r
    requires forall i | 0 <= i < 4 :: Draw(job.next, rs[i], 131056) == Some((rs[i + 1], x[i]))
    requires x[3] <= 131056 && |m| == 64 && m[..16] == s.page.out[x[3]..x[3] + 16] && m[16..] == s.page.msg[16..]
    requires Xored(m, job.next(rs[4].g).ks, c)
    ensures Midpoint(job, s)
         == Some(Salt(Rng(job.init(c[..16], c[16..32], job.next(rs[4].g)), rs[4].ki), s.page.(msg := m)))
  {
    MidBytes(s.page, x[3], m);
    MidpointBy(job, HalfPicker(job.next), s, x, rs, c);
  }

  // ----- a whole fill -----

  /** A round is a block and then the reseed that may be due. */
  lemma RoundLaw(job: Job, s: Salt, t: Salt, u: Salt)
    requires SerialBlock(job, s) == Some(t) && Reseed(job, t) == Some(u)
    ensures SerialRounds(job)(s) == Some(u)
  {
  }

  /** A fill is 128 rounds, the midpoint where the rules have one, and 128 rounds. */
  lemma FillLaw(job: Job, xs: seq<Salt>, ys: seq<Salt>)
    requires |xs| == |ys| == 129
    requires forall i | 0 <= i < 128 ::
      SerialRounds(job)(xs[i]) == Some(xs[i + 1]) && SerialRounds(job)(ys[i]) == Some(ys[i + 1])
    requires if job.rules.midpoint then Midpoint(job, xs[128]) == Some(ys[0]) else ys[0] == xs[128]
    ensures SerialFill(job, xs[0]) == Some(ys[128])
  {
    RepeatInOrder(SerialRounds(job), xs);
    RepeatInOrder(SerialRounds(job), ys);
  }
}
