/** The core-affinity planner, after the topology has been read. */
module Affinity {

  /** A physical core: processor group, first CPU, and L3 group (-1 for none). */
  datatype Core = Core(group: nat, cpu: nat, l3: int)

  /** The positions of the cores in L3 group g, in enumeration order. */
  function Members(cores: seq<Core>, g: int): (at: seq<nat>)
    ensures forall i | 0 <= i < |at| :: at[i] < |cores| && cores[at[i]].l3 == g
    ensures forall i, j | 0 <= i < j < |at| :: at[i] < at[j]
    ensures forall k | 0 <= k < |cores| && cores[k].l3 == g :: k in at
  {
    if |cores| == 0 then []
    else
      var n := |cores| - 1;
      var rest := Members(cores[..n], g);
      assert forall k | 0 <= k < n :: cores[..n][k] == cores[k];
      if cores[n].l3 == g then rest + [n] else rest
  }

  predicate Fits(cores: seq<Core>, g: int, threads: nat) {
    |Members(cores, g)| >= threads
  }

  /** The plan takes the cores at these positions, in this order. */
  predicate Takes(cores: seq<Core>, plan: seq<Core>, at: seq<nat>) {
    |at| == |plan|
    && (forall i | 0 <= i < |at| :: at[i] < |cores| && plan[i] == cores[at[i]])
    && (forall i, j | 0 <= i < j < |at| :: at[i] < at[j])
  }

  /** The inner loop: the cores of one L3 group. */
  method Collect(cores: seq<Core>, g: int) returns (found: seq<Core>)
    ensures Takes(cores, found, Members(cores, g))
  {
    found := [];
    for k := 0 to |cores|
      invariant Takes(cores[..k], found, Members(cores[..k], g))
    {
      assert cores[..k + 1][..k] == cores[..k];
      if cores[k].l3 == g {
        found := found + [cores[k]];
      }
    }
    assert cores[..|cores|] == cores;
  }

  /** The group the plan comes from: the highest-numbered one that fits, if any fits. */
  ghost predicate Chosen(cores: seq<Core>, groups: nat, threads: nat, g: nat) {
    g < groups && Fits(cores, g, threads) && forall h | g < h < groups :: !Fits(cores, h, threads)
  }

  /** Nobody shares a core: the plan takes strictly increasing positions. With no thread or
      fewer than two cores it is empty; otherwise it has min(threads, cores) entries, the first
      ones of the highest L3 group that holds them all, or else of the whole enumeration. */
  method PlanAffinity(cores: seq<Core>, groups: nat, threads: nat)
    returns (plan: seq<Core>, ghost at: seq<nat>, ghost from: int)
    ensures Takes(cores, plan, at)
    ensures |plan| == if threads == 0 || |cores| < 2 then 0 else if threads <= |cores| then threads else |cores|
    ensures |plan| > 0 ==>
              if from >= 0 then Chosen(cores, groups, threads, from) && at == Members(cores, from)[..threads]
              else at == seq(|plan|, i => i) && forall g | 0 <= g < groups :: !Fits(cores, g, threads)
  {
    plan, at, from := [], [], -1;
    if threads == 0 || |cores| < 2 {
      return;
    }
    var g := groups - 1;
    while g >= 0
      invariant -1 <= g < groups && forall h | g < h < groups :: !Fits(cores, h, threads)
    {
      var found := Collect(cores, g);
      if |found| >= threads {
        plan, at, from := found[..threads], Members(cores, g)[..threads], g;
        IncreasingFits(at, |cores|);
        return;
      }
      g := g - 1;
    }
    var k := 0;
    while k < |cores| && k < threads
      invariant 0 <= k <= |cores| && k <= threads && |plan| == k && at == seq(k, i => i) && Takes(cores, plan, at)
    {
      plan, at := plan + [cores[k]], at + [k];
      k := k + 1;
    }
  }

  lemma {:induction false} IncreasingFits(at: seq<nat>, n: nat)
    requires forall i | 0 <= i < |at| :: at[i] < n
    requires forall i, j | 0 <= i < j < |at| :: at[i] < at[j]
    ensures |at| <= n
    decreases |at|
  {
    if |at| > 0 {
      IncreasingFits(at[..|at| - 1], at[|at| - 1]);
    }
  }
}
