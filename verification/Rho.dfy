/** The orbit of a self-map of a finite set: a stretch of fresh values, then only repeats. */
module Rho {
  import opened Iteration

  /** The values among the first n of the orbit. */
  ghost function Seen<T>(f: T -> T, x: T, n: nat): set<T> {
    set i: nat | i < n :: Iterate(f, x, i)
  }

  ghost predicate Fresh<T>(f: T -> T, x: T, n: nat) {
    Iterate(f, x, n) !in Seen(f, x, n)
  }

  ghost predicate Closed<T>(f: T -> T, domain: set<T>) {
    forall v | v in domain :: f(v) in domain
  }

  lemma SeenGrows<T>(f: T -> T, x: T, n: nat)
    ensures Seen(f, x, n + 1) == Seen(f, x, n) + {Iterate(f, x, n)}
  {
  }

  lemma {:induction false} OrbitStaysInside<T>(f: T -> T, x: T, domain: set<T>, n: nat)
    requires Closed(f, domain) && x in domain
    ensures Iterate(f, x, n) in domain
    decreases n
  {
    if n > 0 {
      OrbitStaysInside(f, f(x), domain, n - 1);
    }
  }

  lemma {:induction false} SeenStaysInside<T>(f: T -> T, x: T, domain: set<T>, n: nat)
    requires Closed(f, domain) && x in domain
    ensures Seen(f, x, n) <= domain
    decreases n
  {
    if n > 0 {
      SeenStaysInside(f, x, domain, n - 1);
      SeenGrows(f, x, n - 1);
      OrbitStaysInside(f, x, domain, n - 1);
    }
  }

  /** After the first repeat nothing new appears. */
  lemma {:induction false} NothingNewAfterRepeat<T>(f: T -> T, x: T, m: nat, n: nat)
    requires !Fresh(f, x, m) && m <= n
    ensures Seen(f, x, n) == Seen(f, x, m) && Iterate(f, x, n) in Seen(f, x, m)
    decreases n - m
  {
    if m < n {
      NothingNewAfterRepeat(f, x, m, n - 1);
      SeenGrows(f, x, n - 1);
      var i: nat :| i < m && Iterate(f, x, i) == Iterate(f, x, n - 1);
      IterateLast(f, x, i);
      IterateLast(f, x, n - 1);
      SeenGrows(f, x, m);
      if i + 1 == m {
        assert Iterate(f, x, n) == Iterate(f, x, m);
      }
    }
  }

  /** As long as every value is fresh, n steps show n values. */
  lemma {:induction false} FreshCount<T>(f: T -> T, x: T, n: nat)
    requires forall i: nat | i < n :: Fresh(f, x, i)
    ensures |Seen(f, x, n)| == n
    decreases n
  {
    if n == 0 {
      assert Seen(f, x, 0) == {};
    } else {
      FreshCount(f, x, n - 1);
      SeenGrows(f, x, n - 1);
      assert Fresh(f, x, n - 1);
    }
  }

  lemma {:induction false} SubsetIsSmaller<T>(s: set<T>, t: set<T>)
    requires s <= t
    ensures |s| <= |t|
    decreases s
  {
    if s != {} {
      var v :| v in s;
      SubsetIsSmaller(s - {v}, t - {v});
    }
  }

  /** Where the orbit first repeats. */
  lemma FirstRepeat<T>(f: T -> T, x: T, domain: set<T>) returns (d: nat)
    requires Closed(f, domain) && x in domain
    ensures d <= |domain| && !Fresh(f, x, d) && forall i: nat | i < d :: Fresh(f, x, i)
  {
    d := 0;
    while Fresh(f, x, d)
      invariant d <= |domain| && forall i: nat | i < d :: Fresh(f, x, i)
      decreases |domain| - d
    {
      FreshCount(f, x, d + 1);
      SeenStaysInside(f, x, domain, d + 1);
      SubsetIsSmaller(Seen(f, x, d + 1), domain);
      d := d + 1;
    }
  }

  /** The rho theorem: with d the number of values shown in as many steps as the domain has
      elements, the first d values are pairwise different, every later one repeats one of
      them, and no longer walk shows anything else. */
  lemma RhoShape<T>(f: T -> T, x: T, domain: set<T>)
    requires Closed(f, domain) && x in domain
    ensures var d := |Seen(f, x, |domain|)|;
      && (forall i: nat, j: nat | i < j < d :: Iterate(f, x, i) != Iterate(f, x, j))
      && (forall n: nat | n >= d :: Iterate(f, x, n) in Seen(f, x, d))
      && (forall n: nat | n >= d :: Seen(f, x, n) == Seen(f, x, d))
  {
    var d := FirstRepeat(f, x, domain);
    FreshCount(f, x, d);
    NothingNewAfterRepeat(f, x, d, |domain|);
    forall i: nat, j: nat | i < j < d ensures Iterate(f, x, i) != Iterate(f, x, j) {
      assert Fresh(f, x, j);
    }
    forall n: nat | n >= d ensures Iterate(f, x, n) in Seen(f, x, d) && Seen(f, x, n) == Seen(f, x, d) {
      NothingNewAfterRepeat(f, x, d, n);
    }
  }
}
