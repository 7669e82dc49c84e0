/** Splitting one loop into a planning pass and an emitting pass. */
module Fission {
  import opened Iteration

  /** n rounds, each planning from R and emitting into S at once. */
  ghost function Fused<R, P, S>(plan: R -> Option<(R, P)>, emit: (S, P) -> S, r: R, s: S, n: nat): Option<(R, S)>
    decreases n, r, s
  {
    if n == 0 then Some((r, s))
    else if plan(r).None? then None
    else Fused(plan, emit, plan(r).value.0, emit(s, plan(r).value.1), n - 1)
  }

  lemma FusedOnce<R, P, S>(plan: R -> Option<(R, P)>, emit: (S, P) -> S, r: R, s: S, n: nat)
    requires n > 0 && Fused(plan, emit, r, s, n).Some?
    ensures plan(r).Some?
    ensures Fused(plan, emit, r, s, n) == Fused(plan, emit, plan(r).value.0, emit(s, plan(r).value.1), n - 1)
  {
  }

  /** n rounds of planning only. */
  ghost function Planned<R, P>(plan: R -> Option<(R, P)>, r: R, n: nat): (o: Option<(R, seq<P>)>)
    ensures o.Some? ==> |o.value.1| == n
    decreases n, r
  {
    if n == 0 then Some((r, []))
    else if plan(r).None? then None
    else
      var rest := Planned(plan, plan(r).value.0, n - 1);
      if rest.None? then None else Some((rest.value.0, [plan(r).value.1] + rest.value.1))
  }

  /** Rounds that plan ps on the way through the states rs. */
  lemma {:induction false} PlannedInOrder<R, P>(plan: R -> Option<(R, P)>, rs: seq<R>, ps: seq<P>)
    requires |rs| == |ps| + 1 && forall i | 0 <= i < |ps| :: plan(rs[i]) == Some((rs[i + 1], ps[i]))
    ensures Planned(plan, rs[0], |ps|) == Some((rs[|ps|], ps))
    decreases |ps|
  {
    if |ps| > 0 {
      var r, p := rs[1..], ps[1..];
      forall i | 0 <= i < |p| ensures plan(r[i]) == Some((r[i + 1], p[i])) {
        assert r[i] == rs[i + 1] && r[i + 1] == rs[i + 1 + 1] && p[i] == ps[i + 1];
      }
      PlannedInOrder(plan, r, p);
      assert [ps[0]] + p == ps;
    }
  }

  /** Rounds that go through the states rs and ss, planning ps. */
  lemma {:induction false} FusedInOrder<R, P, S>(plan: R -> Option<(R, P)>, emit: (S, P) -> S,
                                                 rs: seq<R>, ps: seq<P>, ss: seq<S>)
    requires |rs| == |ss| == |ps| + 1
    requires forall i | 0 <= i < |ps| :: plan(rs[i]) == Some((rs[i + 1], ps[i])) && ss[i + 1] == emit(ss[i], ps[i])
    ensures Fused(plan, emit, rs[0], ss[0], |ps|) == Some((rs[|ps|], ss[|ps|]))
    decreases |ps|
  {
    if |ps| > 0 {
      var r, p, s := rs[1..], ps[1..], ss[1..];
      forall i | 0 <= i < |p| ensures plan(r[i]) == Some((r[i + 1], p[i])) && s[i + 1] == emit(s[i], p[i]) {
        assert r[i] == rs[i + 1] && r[i + 1] == rs[i + 1 + 1] && p[i] == ps[i + 1] && s[i + 1] == ss[i + 1 + 1];
      }
      FusedInOrder(plan, emit, r, p, s);
    }
  }

  /** The plans emitted in order. */
  ghost function EmitAll<P, S>(emit: (S, P) -> S, s: S, plans: seq<P>): S
    decreases |plans|, s
  {
    if |plans| == 0 then s else EmitAll(emit, emit(s, plans[0]), plans[1..])
  }

  /** Planning every round before emitting any is the same computation: it fails exactly
      when the fused loop fails, and otherwise ends in the same R and the same S. */
  lemma {:induction false} FissionLaw<R, P, S>(plan: R -> Option<(R, P)>, emit: (S, P) -> S, r: R, s: S, n: nat)
    ensures Fused(plan, emit, r, s, n)
         == var p := Planned(plan, r, n); if p.None? then None else Some((p.value.0, EmitAll(emit, s, p.value.1)))
    decreases n
  {
    if n > 0 && plan(r).Some? {
      var r', p := plan(r).value.0, plan(r).value.1;
      FissionLaw(plan, emit, r', emit(s, p), n - 1);
      var rest := Planned(plan, r', n - 1);
      if rest.Some? {
        assert ([p] + rest.value.1)[1..] == rest.value.1;
      }
    }
  }

  lemma {:induction false} PlannedSame<R(!new), P>(plan: R -> Option<(R, P)>, also: R -> Option<(R, P)>, r: R, n: nat)
    requires forall x :: plan(x) == also(x)
    ensures Planned(plan, r, n) == Planned(also, r, n)
    decreases n
  {
    if n > 0 && plan(r).Some? {
      PlannedSame(plan, also, plan(r).value.0, n - 1);
    }
  }

  /** What every plan satisfies, all planned ones satisfy. */
  lemma {:induction false} PlannedAll<R(!new), P>(plan: R -> Option<(R, P)>, ok: P -> bool, r: R, n: nat)
    requires forall x {:trigger plan(x)} :: plan(x).Some? ==> ok(plan(x).value.1)
    ensures Planned(plan, r, n).Some? ==> forall i | 0 <= i < n :: ok(Planned(plan, r, n).value.1[i])
    decreases n
  {
    if n > 0 && plan(r).Some? {
      PlannedAll(plan, ok, plan(r).value.0, n - 1);
    }
  }

  // ----- one loop with an action in the middle against two loops -----

  /** g is f followed, when the count reaches `at`, by `act`. */
  ghost predicate ActsAt<T(!new)>(f: T -> Option<T>, act: T -> Option<T>, g: T -> Option<T>, count: T -> nat, at: nat) {
    forall x {:trigger g(x)} ::
      g(x) == if f(x).Some? && count(f(x).value) == at then act(f(x).value) else f(x)
  }

  /** Every application of f adds sixteen to the count, and act leaves it alone. */
  ghost predicate Counts<T(!new)>(f: T -> Option<T>, act: T -> Option<T>, count: T -> nat) {
    && (forall x {:trigger f(x)} :: f(x).Some? ==> count(f(x).value) == count(x) + 16)
    && (forall x {:trigger act(x)} :: act(x).Some? ==> count(act(x).value) == count(x))
  }

  lemma {:induction false} CountRounds<T(!new)>(f: T -> Option<T>, act: T -> Option<T>, count: T -> nat, x: T, n: nat)
    requires Counts(f, act, count)
    ensures Repeat(f, x, n).Some? ==> count(Repeat(f, x, n).value) == count(x) + 16 * n
    decreases n
  {
    if n > 0 && f(x).Some? {
      CountRounds(f, act, count, f(x).value, n - 1);
    }
  }

  lemma {:induction false} RoundsWithoutAction<T(!new)>(f: T -> Option<T>, act: T -> Option<T>, g: T -> Option<T>,
                                                     count: T -> nat, at: nat, x: T, n: nat)
    requires ActsAt(f, act, g, count, at) && Counts(f, act, count)
    requires count(x) >= at || count(x) + 16 * n < at
    ensures Repeat(g, x, n) == Repeat(f, x, n)
    decreases n
  {
    if n > 0 && f(x).Some? {
      RoundsWithoutAction(f, act, g, count, at, f(x).value, n - 1);
    }
  }

  /** One loop that acts at the n-th round is n rounds, the action, and the remaining rounds. */
  lemma ActionSplitsLoop<T(!new)>(f: T -> Option<T>, act: T -> Option<T>, g: T -> Option<T>,
                                  count: T -> nat, x: T, n: nat, m: nat)
    requires n > 0 && count(x) == 0
    requires ActsAt(f, act, g, count, 16 * n) && Counts(f, act, count)
    ensures Repeat(g, x, n + m) == TwoLoops(f, act, x, n, m)
  {
    RoundsWithoutAction(f, act, g, count, 16 * n, x, n - 1);
    CountRounds(f, act, count, x, n - 1);
    RepeatAdd(f, x, n - 1, 1);
    RepeatAdd(g, x, n - 1, m + 1);
    assert n - 1 + (m + 1) == n + m;
    var a := Repeat(f, x, n - 1);
    if a.Some? && f(a.value).Some? {
      assert Repeat(f, a.value, 1) == f(a.value);
      assert Repeat(g, a.value, m + 1) == Then(g(a.value), y => Repeat(g, y, m));
      var b := act(f(a.value).value);
      if b.Some? {
        RoundsWithoutAction(f, act, g, count, 16 * n, b.value, m);
      }
    }
  }

  /** n rounds, something in the middle, m rounds. */
  ghost function TwoLoops<T>(f: T -> Option<T>, mid: T -> Option<T>, x: T, n: nat, m: nat): Option<T> {
    Then(Then(Repeat(f, x, n), mid), y => Repeat(f, y, m))
  }

  lemma NothingInTheMiddle<T(!new)>(f: T -> Option<T>, mid: T -> Option<T>, x: T, n: nat, m: nat)
    requires forall y :: mid(y) == Some(y)
    ensures TwoLoops(f, mid, x, n, m) == Repeat(f, x, n + m)
  {
    RepeatAdd(f, x, n, m);
  }
}
