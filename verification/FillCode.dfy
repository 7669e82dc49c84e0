/** The fills as code: an output buffer and a message buffer written in place. */
module FillCode {
  import opened Words
  import opened Iteration
  import opened Fission
  import opened Cipher
  import opened HC128
  import opened Stream
  import opened Sampler
  import opened MulHigh
  import opened Encrypt
  import opened ChainFill
  import opened FillLaws

  // ----- picks -----

  /** The job's generator functions are HC-128's. */
  ghost predicate Runs(job: Job) {
    IsNext(job.next)
    && forall key, iv, g {:trigger job.init(key, iv, g)} ::
         |key| == |iv| == 16 ==> job.init(key, iv, g) == Init(key, iv, g.ks)
  }

  method PickRecentCode(state: State, ki: nat, height: Word, ghost next: Gen -> Gen, ghost r: Rng)
    returns (x: nat, kj: nat, ghost end: Rng)
    requires IsNext(next) && At(state, ki, r) && PickRecent(next, height, r).Some?
    modifies state, state.P, state.Q, state.keystream
    ensures At(state, kj, end) && PickRecent(next, height, r) == Some((end, x))
  {
    var window: Word := if height > WINDOW then WINDOW else height;
    x, kj, end := U32(state, ki, window, next, r);
    x := height - window + x;
  }

  method PickByOddsCode(state: State, ki: nat, odds: nat, height: Word, ghost next: Gen -> Gen, ghost r: Rng)
    returns (x: nat, kj: nat, ghost end: Rng)
    requires IsNext(next) && At(state, ki, r) && PickByOdds(next, odds, height, r).Some?
    modifies state, state.P, state.Q, state.keystream
    ensures At(state, kj, end) && PickByOdds(next, odds, height, r) == Some((end, x))
  {
    var selector;
    selector, kj, end := U32(state, ki, 256, next, r);
    if selector < odds {
      x, kj, end := U32(state, kj, height, next, end);
    } else {
      x, kj, end := PickRecentCode(state, kj, height, next, end);
    }
  }

  /** PICK() and its v5 form. */
  method PickOne(job: Job, state: State, ki: nat, ghost r: Rng) returns (x: nat, kj: nat, ghost end: Rng)
    requires Runs(job) && At(state, ki, r) && Pick(job, r).Some?
    modifies state, state.P, state.Q, state.keystream
    ensures At(state, kj, end) && Pick(job, r) == Some((end, x))
  {
    var height: Word := |job.cache|;
    if job.rules.direct {
      x, kj, end := U32(state, ki, height, job.next, r);
    } else if job.rules.drawB && job.rules.odds >= 256 {
      var w;
      w, kj := TakeWord(state, ki, job.next, r);
      x, end := High(w, height), Drop(job.next, r);
    } else {
      x, kj, end := PickByOddsCode(state, ki, job.rules.odds, height, job.next, r);
    }
  }

  /** What is still to plan, after the plans in `done`. */
  ghost predicate Remaining<R, P>(plan: R -> Option<(R, P)>, start: R, n: nat, r: R, done: seq<P>) {
    |done| <= n && Planned(plan, start, n).Some? && Planned(plan, r, n - |done|).Some?
    && Planned(plan, start, n).value.0 == Planned(plan, r, n - |done|).value.0
    && Planned(plan, start, n).value.1 == done + Planned(plan, r, n - |done|).value.1
  }

  lemma OneMorePlanned<R, P>(plan: R -> Option<(R, P)>, start: R, n: nat, r: R, done: seq<P>)
    requires Remaining(plan, start, n, r, done) && |done| < n
    ensures plan(r).Some? && Remaining(plan, start, n, plan(r).value.0, done + [plan(r).value.1])
  {
    var rest := Planned(plan, plan(r).value.0, n - |done| - 1).value.1;
    assert done + ([plan(r).value.1] + rest) == done + [plan(r).value.1] + rest;
  }

  /** `pick` is a name for Pick, unfolded only where a pick is mentioned. */
  ghost predicate NamesPick(job: Job, pick: Rng -> Option<(Rng, nat)>) {
    forall x {:trigger Pick(job, x)} :: pick(x) == Pick(job, x)
  }

  /** The indices of one message. */
  method FourPicks(job: Job, state: State, ki: nat, ghost r: Rng, ghost pick: Rng -> Option<(Rng, nat)>)
    returns (idx: Quad, kj: nat, ghost end: Rng)
    requires Runs(job) && At(state, ki, r) && NamesPick(job, pick) && Planned<Rng, nat>(pick, r, 4).Some?
    modifies state, state.P, state.Q, state.keystream
    ensures At(state, kj, end) && Planned<Rng, nat>(pick, r, 4) == Some((end, idx))
  {
    var picks: seq<nat> := [];
    kj, end := ki, r;
    assert Remaining<Rng, nat>(pick, r, 4, r, []);
    for j := 0 to 4
      invariant |picks| == j && At(state, kj, end) && Remaining<Rng, nat>(pick, r, 4, end, picks)
    {
      OneMorePlanned<Rng, nat>(pick, r, 4, end, picks);
      assert pick(end) == Pick(job, end);
      var x;
      x, kj, end := PickOne(job, state, kj, end);
      picks := picks + [x];
    }
    assert picks + [] == picks;
    idx := picks;
  }

  /** memcpy into a buffer. */
  method Copy(dst: array<Byte>, at: nat, src: seq<Byte>)
    requires at + |src| <= dst.Length
    modifies dst
    ensures Wrote(old(dst[..]), dst[..], at, src)
  {
    for k := 0 to |src|
      invariant Wrote(old(dst[..]), dst[..], at, src[..k])
    {
      dst[at + k] := src[k];
    }
  }

  lemma PrefixGrows(before: seq<Byte>, after: seq<Byte>, at: nat, bytes: seq<Byte>)
    requires Wrote(before, after, at, bytes)
    ensures after[..at + |bytes|] == before[..at] + bytes
  {
  }

  /** The message for one set of indices. */
  method BuildMessage(job: Job, idx: Quad, count: nat, msg: array<Byte>)
    requires msg.Length == 64 && forall i | 0 <= i < 4 :: idx[i] < |job.cache|
    modifies msg
    ensures msg[..] == Message(job.rules, job.cache, idx, count)
  {
    Copy(msg, 0, job.cache[idx[0]].hash);
    Copy(msg, 32, Field(job.rules, job.cache[idx[1]], 1, count));
    Copy(msg, 40, Field(job.rules, job.cache[idx[2]], 2, count));
    Copy(msg, 48, Field(job.rules, job.cache[idx[3]], 3, count));
    Copy(msg, 56, Le64(count));
  }

  // ----- pick, copy, pick, copy -----

  /** The message so far, after n picks: 32 bytes from the first, eight from each one after. */
  ghost function Begun(job: Job, picks: seq<nat>, count: nat): (m: seq<Byte>)
    requires 1 <= |picks| <= 4
    ensures |m| == 24 + 8 * |picks|
  {
    var j := |picks| - 1;
    if j == 0 then Lookup(job.cache, picks[0]).hash
    else Begun(job, picks[..j], count) + Field(job.rules, Lookup(job.cache, picks[j]), j, count)
  }

  lemma BegunIsMessage(job: Job, idx: Quad, count: nat)
    ensures Begun(job, idx, count) + Le64(count) == Message(job.rules, job.cache, idx, count)
  {
    var a, b, c := idx[..1], idx[..2], idx[..3];
    assert c[..2] == b && b[..1] == a;
    assert Begun(job, b, count) == Begun(job, a, count) + Field(job.rules, Lookup(job.cache, b[1]), 1, count);
    assert Begun(job, c, count) == Begun(job, b, count) + Field(job.rules, Lookup(job.cache, c[2]), 2, count);
  }

  /** The buffer starts with the message so far. */
  ghost predicate Begins(job: Job, msg: array<Byte>, picks: seq<nat>, count: nat)
    reads msg
  {
    msg.Length == 64 && |picks| <= 4 && (|picks| > 0 ==> msg[..24 + 8 * |picks|] == Begun(job, picks, count))
  }

  /** The copy pick j feeds. */
  method CopyPick(job: Job, msg: array<Byte>, j: nat, count: nat, x: nat, ghost picks: seq<nat>)
    requires Begins(job, msg, picks, count) && |picks| == j < 4 && x < |job.cache|
    modifies msg
    ensures Begins(job, msg, picks + [x], count)
  {
    ghost var before := msg[..];
    if j == 0 {
      Copy(msg, 0, job.cache[x].hash);
      PrefixGrows(before, msg[..], 0, job.cache[x].hash);
    } else {
      Copy(msg, 24 + 8 * j, Field(job.rules, job.cache[x], j, count));
      PrefixGrows(before, msg[..], 24 + 8 * j, Field(job.rules, job.cache[x], j, count));
      assert (picks + [x])[..j] == picks;
    }
  }

  /** The last eight bytes complete the message. */
  method CopyCount(job: Job, msg: array<Byte>, count: nat, ghost idx: Quad)
    requires Begins(job, msg, idx, count)
    modifies msg
    ensures msg[..] == Message(job.rules, job.cache, idx, count)
  {
    ghost var before := msg[..];
    Copy(msg, 56, Le64(count));
    PrefixGrows(before, msg[..], 56, Le64(count));
    BegunIsMessage(job, idx, count);
  }

  /** The serial order: each pick is drawn only after the last one's bytes are copied. The
      indices and the message are those of four picks drawn ahead. */
  method PickMessage(job: Job, state: State, ki: nat, msg: array<Byte>, count: nat, ghost r: Rng,
                     ghost pick: Rng -> Option<(Rng, nat)>)
    returns (kj: nat, ghost end: Rng, ghost idx: Quad)
    requires Runs(job) && At(state, ki, r) && Apart(state, msg) && msg.Length == 64
    requires NamesPick(job, pick) && Planned<Rng, nat>(pick, r, 4).Some?
    modifies state, state.P, state.Q, state.keystream, msg
    ensures At(state, kj, end) && Planned<Rng, nat>(pick, r, 4) == Some((end, idx))
    ensures msg[..] == Message(job.rules, job.cache, idx, count)
  {
    ghost var picks: seq<nat> := [];
    kj, end := ki, r;
    assert Remaining<Rng, nat>(pick, r, 4, r, []);
    for j := 0 to 4
      invariant |picks| == j && At(state, kj, end) && Remaining<Rng, nat>(pick, r, 4, end, picks)
      invariant Begins(job, msg, picks, count)
    {
      OneMorePlanned<Rng, nat>(pick, r, 4, end, picks);
      assert pick(end) == Pick(job, end);
      PickIsBelowHeight(job, end);
      var x;
      x, kj, end := PickOne(job, state, kj, end);
      CopyPick(job, msg, j, count, x, picks);
      picks := picks + [x];
    }
    assert picks + [] == picks;
    idx := picks;
    CopyCount(job, msg, count, idx);
  }

  // ----- one message -----

  /** The buffers hold the page: its bytes as a prefix of the output, its message in full. */
  ghost predicate Holds(out: array<Byte>, msg: array<Byte>, page: Page)
    reads out, msg
  {
    out.Length == 262144 && msg.Length == 64 && out != msg && page.Ok() && page.count <= 4096
    && out[..64 * page.count] == page.out && msg[..] == page.msg
  }

  /** The generator's arrays and the two buffers do not overlap. */
  ghost predicate Apart3(state: State, out: array<Byte>, msg: array<Byte>) {
    Apart(state, out) && Apart(state, msg) && out != msg
  }

  /** HC128_EncryptMessage on one 64-byte message. */
  method EncryptBlock(job: Job, state: State, msg: array<Byte>, out: array<Byte>, at: nat,
                      ghost g: Gen, ghost m: seq<Byte>)
    requires Runs(job) && state.Valid() && state.Value() == g && Apart3(state, out, msg)
    requires msg.Length == 64 && at + 64 <= out.Length && msg[..] == m
    modifies state, state.P, state.Q, state.keystream, out
    ensures state.Valid() && state.Value() == job.next(g)
    ensures Wrote(old(out[..]), out[..], at, XorPad(m, job.next(g).ks))
  {
    assert msg[0..64] == m;
    EncryptMessage(state, msg, 0, out, at, 64, job.next);
  }

  /** The message is in place; encrypt it to the end of the page. */
  method EmitSerial(job: Job, state: State, out: array<Byte>, msg: array<Byte>, count: nat,
                    ghost g: Gen, ghost page: Page, ghost idx: Quad)
    requires Runs(job) && state.Valid() && state.Value() == g && Apart3(state, out, msg)
    requires out.Length == 262144 && msg.Length == 64 && page.Ok() && count == page.count < 4096
    requires out[..64 * page.count] == page.out && msg[..] == Message(job.rules, job.cache, idx, page.count)
    modifies state, state.P, state.Q, state.keystream, out
    ensures state.Valid() && state.Value() == job.next(g) && Holds(out, msg, Emit(job, page, Plan(idx, job.next(g).ks)))
  {
    ghost var before, m := out[..], msg[..];
    EncryptBlock(job, state, msg, out, 64 * count, g, m);
    PrefixGrows(before, out[..], 64 * count, XorPad(m, job.next(g).ks));
  }

  ghost predicate NamesPlan(job: Job, plan: Rng -> Option<(Rng, Plan)>) {
    forall x {:trigger PlanMessage(job, x)} :: plan(x) == PlanMessage(job, x)
  }

  ghost predicate NamesEmit(job: Job, emit: (Page, Plan) -> Page) {
    forall p, q {:trigger Emit(job, p, q)} :: emit(p, q) == Emit(job, p, q)
  }

  /** One turn of the serial inner loop: picks, message, encryption. */
  method SerialTurn(job: Job, state: State, ki: nat, out: array<Byte>, msg: array<Byte>, count: nat,
                    ghost r: Rng, ghost page: Page,
                    ghost plan: Rng -> Option<(Rng, Plan)>, ghost emit: (Page, Plan) -> Page) returns (kj: nat)
    requires Runs(job) && At(state, ki, r) && Apart3(state, out, msg) && NamesPlan(job, plan) && NamesEmit(job, emit)
    requires Holds(out, msg, page) && count == page.count < 4096 && plan(r).Some?
    modifies state, state.P, state.Q, state.keystream, out, msg
    ensures At(state, kj, plan(r).value.0) && Holds(out, msg, emit(page, plan(r).value.1))
    ensures emit(page, plan(r).value.1).count == count + 1
  {
    assert plan(r) == PlanMessage(job, r);
    ghost var end, idx;
    kj, end, idx := PickMessage(job, state, ki, msg, count, r, Picker(job));
    EmitSerial(job, state, out, msg, count, end.g, page, idx);
    assert emit(page, plan(r).value.1) == Emit(job, page, plan(r).value.1);
  }

  // ----- one block -----

  /** The serial inner loop: sixteen turns. */
  method SerialSixteen(job: Job, state: State, ki: nat, out: array<Byte>, msg: array<Byte>, count: nat,
                       ghost r: Rng, ghost page: Page,
                       ghost plan: Rng -> Option<(Rng, Plan)>, ghost emit: (Page, Plan) -> Page)
    returns (kj: nat, ghost end: Rng, ghost last: Page)
    requires Runs(job) && At(state, ki, r) && Apart3(state, out, msg) && NamesPlan(job, plan) && NamesEmit(job, emit)
    requires Holds(out, msg, page) && count == page.count <= 4080 && Fused(plan, emit, r, page, 16).Some?
    modifies state, state.P, state.Q, state.keystream, out, msg
    ensures At(state, kj, end) && Fused(plan, emit, r, page, 16) == Some((end, last))
    ensures Holds(out, msg, last) && last.count == count + 16
  {
    kj, end, last := ki, r, page;
    for k := 0 to 16
      invariant Fused(plan, emit, r, page, 16) == Fused(plan, emit, end, last, 16 - k)
      invariant At(state, kj, end) && Holds(out, msg, last) && last.count == count + k
    {
      FusedOnce(plan, emit, end, last, 16 - k);
      kj := SerialTurn(job, state, kj, out, msg, count + k, end, last, plan, emit);
      end, last := plan(end).value.0, emit(last, plan(end).value.1);
    }
  }

  /** A block of the serial loop: a keystream block, then sixteen messages. */
  method SerialBlockCode(job: Job, state: State, ki: nat, out: array<Byte>, msg: array<Byte>, count: nat,
                         ghost r: Rng, ghost page: Page)
    returns (kj: nat, ghost end: Rng, ghost last: Page)
    requires Runs(job) && At(state, ki, r) && Apart3(state, out, msg)
    requires Holds(out, msg, page) && count == page.count <= 4080 && SerialBlock(job, Salt(r, page)).Some?
    modifies state, state.P, state.Q, state.keystream, out, msg
    ensures At(state, kj, end) && SerialBlock(job, Salt(r, page)) == Some(Salt(end, last))
    ensures Holds(out, msg, last) && last.count == count + 16
  {
    state.NextKeys();
    kj, end, last := SerialSixteen(job, state, ki, out, msg, count, Opened(job, r), page, Planner(job), Emitter(job));
  }

  /** The first pass of a run-ahead block: indices and keystream, no cache read. */
  method PlanSixteen(job: Job, state: State, ki: nat, plans: array<Plan>, ghost r: Rng,
                     ghost plan: Rng -> Option<(Rng, Plan)>)
    returns (kj: nat, ghost end: Rng)
    requires Runs(job) && At(state, ki, r) && ApartPlans(state, plans)
    requires plans.Length == 16 && NamesPlan(job, plan) && Planned(plan, r, 16).Some?
    modifies state, state.P, state.Q, state.keystream, plans
    ensures At(state, kj, end) && Planned(plan, r, 16) == Some((end, plans[..]))
  {
    kj, end := ki, r;
    assert Remaining(plan, r, 16, r, []);
    for k := 0 to 16
      invariant At(state, kj, end) && Remaining(plan, r, 16, end, plans[..k])
    {
      OneMorePlanned(plan, r, 16, end, plans[..k]);
      ghost var done := plans[..k];
      assert plan(end) == PlanMessage(job, end);
      var next;
      next, kj := PlanOne(job, state, kj, end);
      end := plan(end).value.0;
      plans[k] := next;
      assert plans[..k + 1] == done + [plans[k]];
    }
    assert plans[..16] == plans[..];
    assert plans[..] + [] == plans[..];
  }

  ghost predicate ApartPlans(state: State, plans: array<Plan>) {
    var a: object, s: object, p: object, q: object, k: object := plans, state, state.P, state.Q, state.keystream;
    a != s && a != p && a != q && a != k
  }

  method PlanOne(job: Job, state: State, ki: nat, ghost r: Rng) returns (plan: Plan, kj: nat)
    requires Runs(job) && At(state, ki, r) && PlanMessage(job, r).Some?
    modifies state, state.P, state.Q, state.keystream
    ensures At(state, kj, PlanMessage(job, r).value.0) && plan == PlanMessage(job, r).value.1
  {
    var idx;
    ghost var end;
    idx, kj, end := FourPicks(job, state, ki, r, Picker(job));
    state.NextKeys();
    plan := Plan(idx, state.keystream[..]);
  }

  /** One gather of the second pass: the message, xored word by word with captured keystream. */
  method GatherOne(job: Job, plan: Plan, out: array<Byte>, msg: array<Byte>, count: nat, ghost page: Page)
    requires Holds(out, msg, page) && count == page.count < 4096 && forall i | 0 <= i < 4 :: plan.idx[i] < |job.cache|
    modifies out, msg
    ensures Holds(out, msg, Emit(job, page, plan))
  {
    BuildMessage(job, plan.idx, count, msg);
    ghost var before, m := out[..], msg[..];
    XorBlock(msg[..], out, 64 * count, plan.ks);
    PrefixGrows(before, out[..], 64 * count, XorPad(m, plan.ks));
  }

  /** The second pass: sixteen gathers. */
  method GatherSixteen(job: Job, plans: array<Plan>, out: array<Byte>, msg: array<Byte>, count: nat, ghost page: Page,
                       ghost emit: (Page, Plan) -> Page)
    returns (ghost last: Page)
    requires NamesEmit(job, emit) && plans.Length == 16 && Holds(out, msg, page) && count == page.count <= 4080
    requires forall k | 0 <= k < 16 :: PlanFits(job, plans[k])
    modifies out, msg
    ensures last == EmitAll(emit, page, plans[..]) && Holds(out, msg, last) && last.count == count + 16
  {
    ghost var ps := plans[..];
    last := page;
    assert ps[0..] == ps;
    for k := 0 to 16
      invariant plans[..] == ps && EmitAll(emit, page, ps) == EmitAll(emit, last, ps[k..])
      invariant Holds(out, msg, last) && last.count == count + k
    {
      assert PlanFits(job, plans[k]) && ps[k..][1..] == ps[k + 1..];
      GatherOne(job, plans[k], out, msg, count + k, last);
      assert emit(last, ps[k]) == Emit(job, last, ps[k]);
      last := Emit(job, last, ps[k]);
    }
  }

  ghost predicate PlanFits(job: Job, plan: Plan) {
    forall i | 0 <= i < 4 :: plan.idx[i] < |job.cache|
  }

  lemma PlansFit(job: Job, r: Rng, n: nat)
    requires Planned(Planner(job), r, n).Some?
    ensures forall k | 0 <= k < n :: PlanFits(job, Planned(Planner(job), r, n).value.1[k])
  {
    var plan := Planner(job);
    forall x: Rng | plan(x).Some? ensures PlanFits(job, plan(x).value.1) {
      PlanIsBelowHeight(job, x);
    }
    PlannedAll(plan, (p: Plan) => PlanFits(job, p), r, n);
  }

  /** A block of the run-ahead loop: a keystream block, the plans, then the gathers. */
  method RunAheadBlockCode(job: Job, state: State, ki: nat, out: array<Byte>, msg: array<Byte>, count: nat,
                           ghost r: Rng, ghost page: Page)
    returns (kj: nat, ghost end: Rng, ghost last: Page)
    requires Runs(job) && At(state, ki, r) && Apart3(state, out, msg)
    requires Holds(out, msg, page) && count == page.count <= 4080 && RunAheadBlock(job, Salt(r, page)).Some?
    modifies state, state.P, state.Q, state.keystream, out, msg
    ensures At(state, kj, end) && RunAheadBlock(job, Salt(r, page)) == Some(Salt(end, last))
    ensures Holds(out, msg, last) && last.count == count + 16
  {
    ghost var start := Opened(job, r);
    PlansFit(job, start, 16);
    var plans := new Plan[16];
    state.NextKeys();
    kj, end := PlanSixteen(job, state, ki, plans, start, Planner(job));
    last := GatherSixteen(job, plans, out, msg, count, page, Emitter(job));
  }

  // ----- reseeding -----

  /** HC128_Init with sixteen bytes of output each for key and IV. */
  method InitFrom(job: Job, state: State, key: seq<Byte>, iv: seq<Byte>, ghost g: Gen)
    requires Runs(job) && state.Valid() && state.Value() == g && |key| == |iv| == 16
    modifies state, state.P, state.Q, state.keystream
    ensures state.Valid() && state.Value() == job.init(key, iv, g)
  {
    state.Init(key, iv);
  }

  lemma SliceOfPrefix(s: seq<Byte>, n: nat, at: nat)
    requires at + 16 <= n <= |s|
    ensures s[..n][at..at + 16] == s[at..at + 16]
  {
  }

  /** The bytes of the page a reseed reads. */
  method SeedBytes(out: array<Byte>, optr: nat, a: nat, b: nat, ghost page: Page)
    returns (iv: seq<Byte>, key: seq<Byte>)
    requires out.Length == 262144 && page.Ok() && 16 <= page.count <= 4096 && optr == 64 * page.count
    requires out[..optr] == page.out && a <= 495 && b <= 495
    ensures iv == IvAt(page, a) && key == KeyAt(page, b)
  {
    SeedsAreInBounds(page, a, b);
    iv := out[optr - 512 + a..optr - 512 + a + 16];
    key := out[optr - 1024 + b..optr - 1024 + b + 16];
    SliceOfPrefix(out[..], optr, optr - 512 + a);
    SliceOfPrefix(out[..], optr, optr - 1024 + b);
  }

  /** The reseed after a block, when one is due. */
  method ReseedCode(job: Job, state: State, ki: nat, out: array<Byte>, count: nat, ghost r: Rng, ghost page: Page)
    returns (kj: nat, ghost end: Rng)
    requires Runs(job) && At(state, ki, r) && Apart(state, out)
    requires out.Length == 262144 && page.Ok() && 16 <= count == page.count <= 4096
    requires out[..64 * count] == page.out && Reseed(job, Salt(r, page)).Some?
    modifies state, state.P, state.Q, state.keystream
    ensures At(state, kj, end) && Reseed(job, Salt(r, page)) == Some(Salt(end, page))
  {
    kj, end := ki, r;
    if count / 16 % job.rules.reseedK == 0 {
      var a, b;
      a, kj, end := U32(state, kj, 496, job.next, end);
      b, kj, end := U32(state, kj, 496, job.next, end);
      var iv, key := SeedBytes(out, 64 * count, a, b, page);
      InitFrom(job, state, key, iv, end.g);
      end := Rng(job.init(key, iv, end.g), kj);
    }
  }

  /** Four draws over the first half; each copies sixteen bytes over the last one's. */
  method MidDraws(job: Job, state: State, ki: nat, out: array<Byte>, msg: array<Byte>, ghost r: Rng, ghost page: Page,
                  ghost draw: Rng -> Option<(Rng, nat)>) returns (kj: nat, ghost end: Rng, ghost xs: seq<nat>)
    requires Runs(job) && At(state, ki, r) && Apart3(state, out, msg)
    requires Holds(out, msg, page) && page.count == 2048
    requires (forall x {:trigger Draw(job.next, x, HALF - 16)} :: draw(x) == Draw(job.next, x, HALF - 16))
    requires Planned<Rng, nat>(draw, r, 4).Some?
    modifies state, state.P, state.Q, state.keystream, msg
    ensures At(state, kj, end) && Planned<Rng, nat>(draw, r, 4) == Some((end, xs)) && msg[..] == MidMessage(page, xs[3])
  {
    kj, end, xs := ki, r, [];
    assert Remaining<Rng, nat>(draw, r, 4, r, []);
    for k := 0 to 4
      invariant |xs| == k && At(state, kj, end) && Remaining<Rng, nat>(draw, r, 4, end, xs)
      invariant msg[16..] == page.msg[16..] && (k > 0 ==> msg[..] == MidMessage(page, xs[k - 1]))
    {
      OneMorePlanned<Rng, nat>(draw, r, 4, end, xs);
      assert draw(end) == Draw(job.next, end, HALF - 16);
      var x;
      x, kj, end := U32(state, kj, HALF - 16, job.next, end);
      xs := xs + [x];
      MidCopy(out, msg, x, page);
    }
    assert xs + [] == xs;
  }

  method MidCopy(out: array<Byte>, msg: array<Byte>, x: nat, ghost page: Page)
    requires out.Length == 262144 && msg.Length == 64 && out != msg && page.Ok() && page.count == 2048
    requires out[..HALF] == page.out && msg[16..] == page.msg[16..] && x <= HALF - 16
    modifies msg
    ensures msg[16..] == page.msg[16..] && msg[..] == MidMessage(page, x)
  {
    var optr := HALF;
    ghost var slice := out[optr - HALF + x..optr - HALF + x + 16];
    assert slice == Slice16(page.out, x);
    Copy(msg, 0, out[optr - HALF + x..optr - HALF + x + 16]);
    assert msg[..] == slice + page.msg[16..];
  }

  /** The midpoint reseed; its scratch block goes where the next message will. */
  method MidpointCode(job: Job, state: State, ki: nat, out: array<Byte>, msg: array<Byte>,
                      ghost r: Rng, ghost page: Page)
    returns (kj: nat, ghost end: Rng, ghost after: Page)
    requires Runs(job) && At(state, ki, r) && Apart3(state, out, msg)
    requires Holds(out, msg, page) && page.count == 2048 && Midpoint(job, Salt(r, page)).Some?
    modifies state, state.P, state.Q, state.keystream, out, msg
    ensures At(state, kj, end) && Midpoint(job, Salt(r, page)) == Some(Salt(end, after))
    ensures Holds(out, msg, after) && after.count == 2048
  {
    ghost var xs;
    kj, end, xs := MidDraws(job, state, ki, out, msg, r, page, HalfPicker(job.next));
    ghost var m := msg[..];
    after := page.(msg := m);
    MidInit(job, state, out, msg, end.g, m);
    ghost var h := job.next(end.g);
    end := Rng(job.init(XorPad(m, h.ks)[..16], XorPad(m, h.ks)[16..32], h), kj);
  }

  /** Encrypt the scratch block and reseed from it. */
  method MidInit(job: Job, state: State, out: array<Byte>, msg: array<Byte>, ghost g: Gen, ghost m: seq<Byte>)
    requires Runs(job) && state.Valid() && state.Value() == g && Apart3(state, out, msg)
    requires out.Length == 262144 && msg.Length == 64 && msg[..] == m
    modifies state, state.P, state.Q, state.keystream, out
    ensures out[..HALF] == old(out[..HALF]) && state.Valid()
    ensures var h := job.next(g);
            state.Value() == job.init(XorPad(m, h.ks)[..16], XorPad(m, h.ks)[16..32], h)
  {
    var optr := HALF;
    ghost var before, h := out[..], job.next(g);
    EncryptBlock(job, state, msg, out, optr, g, m);
    ScratchBytes(before, out[..], optr, XorPad(m, h.ks));
    InitFrom(job, state, out[optr..optr + 16], out[optr + 16..optr + 32], h);
  }

  lemma ScratchBytes(before: seq<Byte>, after: seq<Byte>, at: nat, bytes: seq<Byte>)
    requires Wrote(before, after, at, bytes) && |bytes| == 64
    ensures after[..at] == before[..at] && after[at..at + 16] == bytes[..16] && after[at + 16..at + 32] == bytes[16..32]
  {
  }

  // ----- whole fills -----

  /** Block and reseed. */
  method SerialRoundCode(job: Job, state: State, ki: nat, out: array<Byte>, msg: array<Byte>, count: nat,
                         ghost r: Rng, ghost page: Page, ghost f: Salt -> Option<Salt>)
    returns (kj: nat, ghost end: Rng, ghost last: Page)
    requires Runs(job) && At(state, ki, r) && Apart3(state, out, msg)
    requires Holds(out, msg, page) && count == page.count <= 4080 && NamesRound(job, f) && f(Salt(r, page)).Some?
    modifies state, state.P, state.Q, state.keystream, out, msg
    ensures At(state, kj, end) && f(Salt(r, page)) == Some(Salt(end, last))
    ensures Holds(out, msg, last) && last.count == count + 16
  {
    assert f(Salt(r, page)) == SerialRound(job, Salt(r, page));
    kj, end, last := SerialBlockCode(job, state, ki, out, msg, count, r, page);
    kj, end := ReseedCode(job, state, kj, out, count + 16, end, last);
  }

  ghost predicate NamesRound(job: Job, f: Salt -> Option<Salt>) {
    forall s {:trigger SerialRound(job, s)} :: f(s) == SerialRound(job, s)
  }

  /** while (count < limit) of the serial loops. */
  method SerialLoop(job: Job, state: State, ki: nat, out: array<Byte>, msg: array<Byte>, from: nat, limit: nat,
                    ghost r: Rng, ghost page: Page, ghost n: nat, ghost f: Salt -> Option<Salt>)
    returns (kj: nat, ghost end: Rng, ghost last: Page)
    requires Runs(job) && At(state, ki, r) && Apart3(state, out, msg)
    requires Holds(out, msg, page) && from == page.count && limit == from + 16 * n <= 4096
    requires NamesRound(job, f) && Repeat(f, Salt(r, page), n).Some?
    modifies state, state.P, state.Q, state.keystream, out, msg
    ensures At(state, kj, end) && Repeat(f, Salt(r, page), n) == Some(Salt(end, last))
    ensures Holds(out, msg, last) && last.count == limit
  {
    var count := from;
    ghost var k := 0;
    kj, end, last := ki, r, page;
    while count < limit
      invariant k <= n && Repeat(f, Salt(r, page), n) == Repeat(f, Salt(end, last), n - k)
      invariant At(state, kj, end) && Holds(out, msg, last) && last.count == count == from + 16 * k
    {
      RepeatOnce(f, Salt(end, last), n - k);
      kj, end, last := SerialRoundCode(job, state, kj, out, msg, count, end, last, f);
      count := count + 16;
      k := k + 1;
    }
  }

  /** Where a fill starts: nothing written, cursor at 0. */
  function Start(g: Gen): Salt {
    Salt(Rng(g, 0), Page([], Zeros(64), 0))
  }

  /** The buffer, the generator and the cursor are what the fill promises. */
  ghost predicate Filled(job: Job, g: Gen, out: seq<Byte>, end: Rng) {
    SerialFill(job, Start(g)).Some?
    && SerialFill(job, Start(g)).value.r == end && SerialFill(job, Start(g)).value.page.out == out
  }

  method NewMessage() returns (msg: array<Byte>)
    ensures fresh(msg) && msg.Length == 64 && msg[..] == Zeros(64)
  {
    msg := new Byte[64](_ => 0);
  }

  lemma PageIsBuffer(out: array<Byte>, msg: array<Byte>, page: Page)
    requires Holds(out, msg, page) && page.count == 4096
    ensures out[..] == page.out
  {
    assert out[..64 * 4096] == out[..];
  }

  /** chain_fill_v5, and the daemon's reference loop: two loops around the midpoint. */
  method FillTwoLoops(job: Job, state: State, out: array<Byte>, ghost g: Gen) returns (kj: nat)
    requires Runs(job) && state.Valid() && state.Value() == g && Apart(state, out)
    requires job.rules.midpoint && out.Length == 262144 && SerialFill(job, Start(g)).Some?
    modifies state, state.P, state.Q, state.keystream, out
    ensures state.Valid() && Filled(job, g, out[..], Rng(state.Value(), kj))
  {
    var msg := NewMessage();
    ghost var page, end := Page([], Zeros(64), 0), Rng(g, 0);
    kj, end, page := SerialLoop(job, state, 0, out, msg, 0, 2048, end, page, 128, SerialRounds(job));
    kj, end, page := MidpointCode(job, state, kj, out, msg, end, page);
    kj, end, page := SerialLoop(job, state, kj, out, msg, 2048, 4096, end, page, 128, SerialRounds(job));
    PageIsBuffer(out, msg, page);
  }

  /** chain_fill_v6: one loop. */
  method FillOneLoop(job: Job, state: State, out: array<Byte>, ghost g: Gen) returns (kj: nat)
    requires Runs(job) && state.Valid() && state.Value() == g && Apart(state, out)
    requires !job.rules.midpoint && out.Length == 262144 && SerialFill(job, Start(g)).Some?
    modifies state, state.P, state.Q, state.keystream, out
    ensures state.Valid() && Filled(job, g, out[..], Rng(state.Value(), kj))
  {
    var msg := NewMessage();
    ghost var page, end := Page([], Zeros(64), 0), Rng(g, 0);
    SerialFillIsOneLoop(job, Start(g));
    kj, end, page := SerialLoop(job, state, 0, out, msg, 0, 4096, end, page, 256, SerialRounds(job));
    PageIsBuffer(out, msg, page);
  }

  /** Block, reseed and, at count 2048, the midpoint. */
  method RunAheadRoundCode(job: Job, state: State, ki: nat, out: array<Byte>, msg: array<Byte>, count: nat,
                           ghost r: Rng, ghost page: Page, ghost f: Salt -> Option<Salt>)
    returns (kj: nat, ghost end: Rng, ghost last: Page)
    requires Runs(job) && At(state, ki, r) && Apart3(state, out, msg)
    requires Holds(out, msg, page) && count == page.count <= 4080 && NamesRunAhead(job, f) && f(Salt(r, page)).Some?
    modifies state, state.P, state.Q, state.keystream, out, msg
    ensures At(state, kj, end) && f(Salt(r, page)) == Some(Salt(end, last))
    ensures Holds(out, msg, last) && last.count == count + 16
  {
    assert f(Salt(r, page)) == RunAheadRound(job, Salt(r, page));
    kj, end, last := RunAheadBlockCode(job, state, ki, out, msg, count, r, page);
    kj, end := ReseedCode(job, state, kj, out, count + 16, end, last);
    if job.rules.midpoint && count + 16 == 2048 {
      kj, end, last := MidpointCode(job, state, kj, out, msg, end, last);
    }
  }

  ghost predicate NamesRunAhead(job: Job, f: Salt -> Option<Salt>) {
    forall s {:trigger RunAheadRound(job, s)} :: f(s) == RunAheadRound(job, s)
  }

  /** while (count < 4096) of the run-ahead loops. */
  method RunAheadLoop(job: Job, state: State, out: array<Byte>, msg: array<Byte>,
                      ghost r: Rng, ghost page: Page, ghost f: Salt -> Option<Salt>)
    returns (kj: nat, ghost end: Rng, ghost last: Page)
    requires Runs(job) && At(state, 0, r) && Apart3(state, out, msg)
    requires Holds(out, msg, page) && page.count == 0
    requires NamesRunAhead(job, f) && Repeat(f, Salt(r, page), 256).Some?
    modifies state, state.P, state.Q, state.keystream, out, msg
    ensures At(state, kj, end) && Repeat(f, Salt(r, page), 256) == Some(Salt(end, last))
    ensures Holds(out, msg, last) && last.count == 4096
  {
    var count := 0;
    ghost var k := 0;
    kj, end, last := 0, r, page;
    while count < 4096
      invariant k <= 256 && Repeat(f, Salt(r, page), 256) == Repeat(f, Salt(end, last), 256 - k)
      invariant At(state, kj, end) && Holds(out, msg, last) && last.count == count == 16 * k
    {
      RepeatOnce(f, Salt(end, last), 256 - k);
      kj, end, last := RunAheadRoundCode(job, state, kj, out, msg, count, end, last, f);
      count := count + 16;
      k := k + 1;
    }
  }

  /** chain_fill_v6_run, and the daemon's run-ahead loop. Its result is the serial one. */
  method FillRunAhead(job: Job, state: State, out: array<Byte>, ghost g: Gen) returns (kj: nat)
    requires Runs(job) && state.Valid() && state.Value() == g && Apart(state, out)
    requires out.Length == 262144 && SerialFill(job, Start(g)).Some?
    modifies state, state.P, state.Q, state.keystream, out
    ensures state.Valid() && Filled(job, g, out[..], Rng(state.Value(), kj))
  {
    var msg := NewMessage();
    ghost var page, end := Page([], Zeros(64), 0), Rng(g, 0);
    RunAheadFillIsSerial(job, Start(g));
    kj, end, page := RunAheadLoop(job, state, out, msg, end, page, RunAheadRounds(job));
    PageIsBuffer(out, msg, page);
  }
}
