/** Repeated application of a map, and what injectivity does to its orbits. */
module Iteration {

  datatype Option<+T> = None | Some(value: T)

  function Iterate<T>(f: T -> T, x: T, n: nat): T
    decreases n, x
  {
    if n == 0 then x else Iterate(f, f(x), n - 1)
  }

  lemma {:induction false} IterateAdd<T>(f: T -> T, x: T, m: nat, n: nat)
    ensures Iterate(f, x, m + n) == Iterate(f, Iterate(f, x, m), n)
    decreases m
  {
    if m > 0 {
      IterateAdd(f, f(x), m - 1, n);
    }
  }

  lemma IterateLast<T>(f: T -> T, x: T, n: nat)
    ensures Iterate(f, x, n + 1) == f(Iterate(f, x, n))
  {
    IterateAdd(f, x, n, 1);
    assert Iterate(f, Iterate(f, x, n), 1) == Iterate(f, f(Iterate(f, x, n)), 0);
  }

  /** f never sends values that `same` tells apart to values it identifies. */
  ghost predicate Separates<T(!new)>(f: T -> T, same: (T, T) -> bool) {
    forall a, b :: same(f(a), f(b)) ==> same(a, b)
  }

  lemma {:induction false} OrbitsNeverMerge<T(!new)>(f: T -> T, same: (T, T) -> bool, a: T, b: T, n: nat)
    requires Separates(f, same) && same(Iterate(f, a, n), Iterate(f, b, n))
    ensures same(a, b)
    decreases n
  {
    if n > 0 {
      OrbitsNeverMerge(f, same, f(a), f(b), n - 1);
    }
  }

  /** An orbit that ever comes back to an earlier value comes back to its first: no tail. */
  lemma OrbitHasNoTail<T(!new)>(f: T -> T, same: (T, T) -> bool, x: T, i: nat, n: nat)
    requires Separates(f, same) && same(Iterate(f, x, i), Iterate(f, x, n + i))
    ensures same(x, Iterate(f, x, n))
  {
    IterateAdd(f, x, n, i);
    OrbitsNeverMerge(f, same, x, Iterate(f, x, n), i);
  }

  /** same is reflexive and transitive, and f cannot tell what it identifies. */
  ghost predicate Congruence<T(!new)>(f: T -> T, same: (T, T) -> bool) {
    && (forall a :: same(a, a))
    && (forall a, b, c {:trigger same(a, b), same(b, c)} :: same(a, b) && same(b, c) ==> same(a, c))
    && (forall a, b {:trigger f(a), f(b)} :: same(a, b) ==> same(f(a), f(b)))
  }

  /** Back by u and forward by f, as often: if one step of each changes nothing, n change nothing. */
  lemma {:induction false} RunRedone<T(!new)>(f: T -> T, u: T -> T, same: (T, T) -> bool, x: T, n: nat)
    requires Congruence(f, same) && forall y {:trigger u(y)} :: same(f(u(y)), y)
    ensures same(Iterate(f, Iterate(u, x, n), n), x)
    decreases n
  {
    if n > 0 {
      var z := Iterate(u, u(x), n - 1);
      RunRedone(f, u, same, u(x), n - 1);
      IterateLast(f, z, n - 1);
      assert same(f(Iterate(f, z, n - 1)), f(u(x)));
    }
  }

  // ----- partial maps -----

  /** n applications of a map that may fail to return; one failure is final. */
  function Repeat<T>(f: T -> Option<T>, x: T, n: nat): Option<T>
    decreases n, x
  {
    if n == 0 then Some(x) else if f(x).None? then None else Repeat(f, f(x).value, n - 1)
  }

  lemma RepeatOnce<T>(f: T -> Option<T>, x: T, n: nat)
    requires n > 0 && Repeat(f, x, n).Some?
    ensures f(x).Some? && Repeat(f, x, n) == Repeat(f, f(x).value, n - 1)
  {
  }

  /** Applications that go through the values xs. */
  lemma {:induction false} RepeatInOrder<T>(f: T -> Option<T>, xs: seq<T>)
    requires |xs| > 0 && forall i | 0 <= i < |xs| - 1 :: f(xs[i]) == Some(xs[i + 1])
    ensures Repeat(f, xs[0], |xs| - 1) == Some(xs[|xs| - 1])
    decreases |xs|
  {
    if |xs| > 1 {
      var ys := xs[1..];
      forall i | 0 <= i < |ys| - 1 ensures f(ys[i]) == Some(ys[i + 1]) {
        assert ys[i] == xs[i + 1] && ys[i + 1] == xs[i + 1 + 1];
      }
      RepeatInOrder(f, ys);
    }
  }

  /** f and then g. */
  function Then<T>(x: Option<T>, g: T -> Option<T>): Option<T> {
    if x.None? then None else g(x.value)
  }

  lemma {:induction false} RepeatAdd<T>(f: T -> Option<T>, x: T, m: nat, n: nat)
    ensures Repeat(f, x, m + n) == Then(Repeat(f, x, m), y => Repeat(f, y, n))
    decreases m
  {
    if m > 0 && f(x).Some? {
      RepeatAdd(f, f(x).value, m - 1, n);
    }
  }

  lemma {:induction false} RepeatSame<T(!new)>(f: T -> Option<T>, g: T -> Option<T>, x: T, n: nat)
    requires forall y :: f(y) == g(y)
    ensures Repeat(f, x, n) == Repeat(g, x, n)
    decreases n
  {
    if n > 0 && f(x).Some? {
      RepeatSame(f, g, f(x).value, n - 1);
    }
  }

  /** What one application keeps, any number of applications keep. */
  lemma {:induction false} RepeatKeeps<T(!new)>(f: T -> Option<T>, inv: T -> bool, x: T, n: nat)
    requires inv(x) && forall y {:trigger f(y)} :: inv(y) && f(y).Some? ==> inv(f(y).value)
    ensures Repeat(f, x, n).Some? ==> inv(Repeat(f, x, n).value)
    decreases n
  {
    if n > 0 && f(x).Some? {
      RepeatKeeps(f, inv, f(x).value, n - 1);
    }
  }
}
