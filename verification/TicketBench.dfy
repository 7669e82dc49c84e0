/** bench_threads: a ready/go barrier and a shared ticket counter, under every interleaving
    of main and workers. Each event is one atomic access together with the private work
    around it. */
module TicketBench {
  import opened Iteration

  datatype Worker =
    | Unstarted
    | Starting               // allocating, or hashing to warm up
    | Broken                 // failed is counted, ready is not yet
    | Warm                   // warmed up, ready is not yet counted
    | Waiting                // spinning on go
    | Pulling                // about to take a ticket
    | Hashing(ticket: int)   // a timed hash is running
    | Gone(alive: bool)

  datatype Phase = Spawning | Polling | Joining | Finished(result: int)

  datatype Sys = Sys(total: nat, phase: Phase, ws: seq<Worker>, spawned: nat, ready: nat, failed: nat, go: bool,
                     remaining: int, claimed: seq<int>, hashes: nat)

  datatype Event =
    | Spawn | EndSpawn | Release | Finish
    | Fail(i: nat) | Warmed(i: nat) | Ready(i: nat) | SeeGo(i: nat) | Take(i: nat) | HashDone(i: nat)

  function Start(threads: nat, total: nat): Sys {
    Sys(total, Spawning, seq(threads, _ => Unstarted), 0, 0, 0, false, total, [], 0)
  }

  /** The state after an event, or None when the event is not possible. */
  function Next(s: Sys, e: Event): Option<Sys> {
    match e
    case Spawn =>
      if s.phase.Spawning? && s.spawned < |s.ws| then
        Some(s.(ws := s.ws[s.spawned := Starting], spawned := s.spawned + 1))
      else None
    case EndSpawn => if s.phase.Spawning? && s.spawned >= |s.ws| then Some(s.(phase := Polling)) else None
    case Release => if s.phase.Polling? && s.ready >= |s.ws| then Some(s.(phase := Joining, go := true)) else None
    case Finish =>
      if s.phase.Joining? && (forall k | 0 <= k < |s.ws| :: s.ws[k].Gone?) then
        Some(s.(phase := Finished(if s.failed != 0 then -1 else s.total)))
      else None
    case Fail(i) =>
      if i < |s.ws| && s.ws[i].Starting? then Some(s.(ws := s.ws[i := Broken], failed := s.failed + 1)) else None
    case Warmed(i) => if i < |s.ws| && s.ws[i].Starting? then Some(s.(ws := s.ws[i := Warm])) else None
    case Ready(i) =>
      if i < |s.ws| && s.ws[i].Broken? then Some(s.(ws := s.ws[i := Gone(false)], ready := s.ready + 1))
      else if i < |s.ws| && s.ws[i].Warm? then Some(s.(ws := s.ws[i := Waiting], ready := s.ready + 1))
      else None
    case SeeGo(i) => if i < |s.ws| && s.ws[i].Waiting? && s.go then Some(s.(ws := s.ws[i := Pulling])) else None
    case Take(i) =>
      if i < |s.ws| && s.ws[i].Pulling? then
        if s.remaining > 0 then
          Some(s.(ws := s.ws[i := Hashing(s.remaining)], claimed := s.claimed + [s.remaining],
                  remaining := s.remaining - 1))
        else Some(s.(ws := s.ws[i := Gone(true)], remaining := s.remaining - 1))
      else None
    case HashDone(i) =>
      if i < |s.ws| && s.ws[i].Hashing? then Some(s.(ws := s.ws[i := Pulling], hashes := s.hashes + 1)) else None
  }

  // ----- sums over the workers -----

  ghost function Sum(ws: seq<Worker>, f: Worker -> int): int
  {
    if |ws| == 0 then 0 else Sum(ws[..|ws| - 1], f) + f(ws[|ws| - 1])
  }

  lemma {:induction false} SumUpdate(ws: seq<Worker>, f: Worker -> int, i: nat, w: Worker)
    requires i < |ws|
    ensures Sum(ws[i := w], f) == Sum(ws, f) - f(ws[i]) + f(w)
    decreases |ws|
  {
    var last := |ws| - 1;
    var vs := ws[i := w];
    if i < last {
      assert vs[..last] == ws[..last][i := w];
      SumUpdate(ws[..last], f, i, w);
    } else {
      assert vs[..last] == ws[..last];
    }
  }

  lemma {:induction false} SumBounds(ws: seq<Worker>, f: Worker -> int)
    requires forall w {:trigger f(w)} :: 0 <= f(w) <= 1
    ensures 0 <= Sum(ws, f) <= |ws|
    ensures Sum(ws, f) == |ws| <==> forall k | 0 <= k < |ws| :: f(ws[k]) == 1
    ensures Sum(ws, f) == 0 <==> forall k | 0 <= k < |ws| :: f(ws[k]) == 0
    decreases |ws|
  {
    if |ws| > 0 {
      var last := |ws| - 1;
      SumBounds(ws[..last], f);
      assert forall k | 0 <= k < last :: ws[..last][k] == ws[k];
    }
  }

  function IsReady(w: Worker): int { if w.Waiting? || w.Pulling? || w.Hashing? || w.Gone? then 1 else 0 }
  function IsFailed(w: Worker): int { if w.Broken? || w == Gone(false) then 1 else 0 }
  function IsHashing(w: Worker): int { if w.Hashing? then 1 else 0 }
  function IsRetired(w: Worker): int { if w == Gone(true) then 1 else 0 }
  function IsEngaged(w: Worker): int { if w.Pulling? || w.Hashing? || w == Gone(true) then 1 else 0 }

  // ----- the invariant -----

  /** What a worker's state says about main: spawned or not, and past the barrier only after go. */
  ghost predicate Placed(s: Sys, k: nat)
    requires k < |s.ws|
  {
    && (s.ws[k].Unstarted? <==> k >= s.spawned)
    && (s.ws[k].Pulling? || s.ws[k].Hashing? || s.ws[k] == Gone(true) ==> s.go)
    && (s.phase.Finished? ==> s.ws[k].Gone?)
  }

  ghost predicate Phased(s: Sys) {
    && s.spawned <= |s.ws|
    && (s.phase.Spawning? || s.spawned == |s.ws|)
    && (s.go <==> s.phase.Joining? || s.phase.Finished?)
    && (s.go ==> s.ready == |s.ws|)
    && (s.phase.Finished? ==> s.phase.result == if s.failed != 0 then -1 else s.total)
    && forall k: nat | k < |s.ws| :: Placed(s, k)
  }

  ghost predicate Counted(s: Sys) {
    && s.ready == Sum(s.ws, IsReady)
    && s.failed == Sum(s.ws, IsFailed)
    && s.hashes + Sum(s.ws, IsHashing) == |s.claimed|
    && s.remaining == s.total - |s.claimed| - Sum(s.ws, IsRetired)
  }

  ghost predicate Ticketed(s: Sys) {
    && |s.claimed| <= s.total
    && (Sum(s.ws, IsRetired) > 0 ==> |s.claimed| == s.total)
    && (!s.go ==> s.claimed == [])
    && (s.claimed != [] ==> Sum(s.ws, IsEngaged) > 0)
    && forall k | 0 <= k < |s.claimed| :: s.claimed[k] == s.total - k
  }

  ghost predicate Inv(s: Sys) {
    Phased(s) && Counted(s) && Ticketed(s)
  }

  lemma {:induction false} SumOfFresh(n: nat, f: Worker -> int)
    requires f(Unstarted) == 0
    ensures Sum(seq(n, _ => Unstarted), f) == 0
  {
    if n > 0 {
      assert seq(n, _ => Unstarted)[..n - 1] == seq(n - 1, _ => Unstarted);
      SumOfFresh(n - 1, f);
    }
  }

  lemma InvStart(threads: nat, total: nat)
    ensures Inv(Start(threads, total))
  {
    SumOfFresh(threads, IsReady);
    SumOfFresh(threads, IsFailed);
    SumOfFresh(threads, IsHashing);
    SumOfFresh(threads, IsRetired);
    SumOfFresh(threads, IsEngaged);
  }

  /** What changing one worker does to the sums. */
  lemma SumsUpdate(ws: seq<Worker>, i: nat, w: Worker)
    requires i < |ws|
    ensures Sum(ws[i := w], IsReady) == Sum(ws, IsReady) - IsReady(ws[i]) + IsReady(w)
    ensures Sum(ws[i := w], IsFailed) == Sum(ws, IsFailed) - IsFailed(ws[i]) + IsFailed(w)
    ensures Sum(ws[i := w], IsHashing) == Sum(ws, IsHashing) - IsHashing(ws[i]) + IsHashing(w)
    ensures Sum(ws[i := w], IsRetired) == Sum(ws, IsRetired) - IsRetired(ws[i]) + IsRetired(w)
    ensures Sum(ws[i := w], IsEngaged) == Sum(ws, IsEngaged) - IsEngaged(ws[i]) + IsEngaged(w)
  {
    SumUpdate(ws, IsReady, i, w);
    SumUpdate(ws, IsFailed, i, w);
    SumUpdate(ws, IsHashing, i, w);
    SumUpdate(ws, IsRetired, i, w);
    SumUpdate(ws, IsEngaged, i, w);
  }

  lemma RetiredIsNatural(s: Sys)
    ensures Sum(s.ws, IsRetired) >= 0 && Sum(s.ws, IsEngaged) >= 0
    ensures forall k | 0 <= k < |s.ws| && IsEngaged(s.ws[k]) == 1 :: Sum(s.ws, IsEngaged) > 0
  {
    SumBounds(s.ws, IsRetired);
    SumBounds(s.ws, IsEngaged);
  }

  /** Nobody is still to report once everybody has reported. */
  lemma AllReported(s: Sys)
    requires Inv(s) && s.go
    ensures forall k | 0 <= k < |s.ws| :: IsReady(s.ws[k]) == 1
  {
    SumBounds(s.ws, IsReady);
  }

  lemma InvSpawn(s: Sys)
    requires Inv(s) && Next(s, Spawn).Some?
    ensures Inv(Next(s, Spawn).value)
  {
    assert Placed(s, s.spawned);
    SumsUpdate(s.ws, s.spawned, Starting);
    var t := Next(s, Spawn).value;
    forall k: nat | k < |t.ws| ensures Placed(t, k) {
      assert Placed(s, k);
    }
  }

  lemma InvMain(s: Sys, e: Event)
    requires Inv(s) && Next(s, e).Some? && (e.EndSpawn? || e.Release? || e.Finish?)
    ensures Inv(Next(s, e).value)
  {
    SumBounds(s.ws, IsReady);
    var t := Next(s, e).value;
    forall k: nat | k < |t.ws| ensures Placed(t, k) {
      assert Placed(s, k);
    }
  }

  /** An event of worker i leaves the other workers where they were. */
  lemma OthersPlaced(s: Sys, e: Event, i: nat)
    requires Inv(s) && Next(s, e).Some? && i < |s.ws| && Next(s, e).value.ws == s.ws[i := Next(s, e).value.ws[i]]
    requires Next(s, e).value.spawned == s.spawned && Next(s, e).value.go == s.go && Next(s, e).value.phase == s.phase
    requires Placed(Next(s, e).value, i)
    ensures forall k: nat | k < |s.ws| :: Placed(Next(s, e).value, k)
  {
    var t := Next(s, e).value;
    forall k: nat | k < |t.ws| ensures Placed(t, k) {
      assert Placed(s, k);
    }
  }

  lemma InvSetup(s: Sys, e: Event)
    requires Inv(s) && Next(s, e).Some? && (e.Fail? || e.Warmed? || e.Ready?)
    ensures Inv(Next(s, e).value)
  {
    if s.go {
      AllReported(s);
    }
    assert Placed(s, e.i);
    OthersPlaced(s, e, e.i);
    SumsUpdate(s.ws, e.i, Next(s, e).value.ws[e.i]);
  }

  lemma InvWork(s: Sys, e: Event)
    requires Inv(s) && Next(s, e).Some? && (e.SeeGo? || e.Take? || e.HashDone?)
    ensures Inv(Next(s, e).value)
  {
    RetiredIsNatural(s);
    assert Placed(s, e.i);
    OthersPlaced(s, e, e.i);
    SumsUpdate(s.ws, e.i, Next(s, e).value.ws[e.i]);
  }

  /** Every event keeps the invariant. */
  lemma InvNext(s: Sys, e: Event)
    requires Inv(s) && Next(s, e).Some?
    ensures Inv(Next(s, e).value)
  {
    if e.Spawn? {
      InvSpawn(s);
    } else if e.EndSpawn? || e.Release? || e.Finish? {
      InvMain(s, e);
    } else if e.Fail? || e.Warmed? || e.Ready? {
      InvSetup(s, e);
    } else {
      InvWork(s, e);
    }
  }

  // ----- whole runs -----

  /** The state after a sequence of events, any interleaving at all. */
  function Run(s: Sys, events: seq<Event>): Option<Sys>
    decreases |events|
  {
    if |events| == 0 then Some(s)
    else if Next(s, events[0]).None? then None
    else Run(Next(s, events[0]).value, events[1..])
  }

  lemma {:induction false} InvRun(s: Sys, events: seq<Event>)
    requires Inv(s) && Run(s, events).Some?
    ensures Inv(Run(s, events).value)
    decreases |events|
  {
    if |events| > 0 {
      InvNext(s, events[0]);
      InvRun(Next(s, events[0]).value, events[1..]);
    }
  }

  predicate WarmOrFailed(w: Worker) {
    IsReady(w) == 1
  }

  /** No ticket is taken, so no timed hash starts, before every worker has warmed up or failed. */
  lemma BarrierHolds(threads: nat, total: nat, events: seq<Event>)
    requires Run(Start(threads, total), events).Some?
    ensures var s := Run(Start(threads, total), events).value;
      s.claimed != [] || s.go ==> forall k | 0 <= k < |s.ws| :: WarmOrFailed(s.ws[k])
  {
    InvStart(threads, total);
    InvRun(Start(threads, total), events);
    var s := Run(Start(threads, total), events).value;
    if s.go {
      AllReported(s);
    }
  }

  /** Tickets are handed out downward from `total`, each at most once. */
  lemma TicketsAreDistinct(threads: nat, total: nat, events: seq<Event>)
    requires Run(Start(threads, total), events).Some?
    ensures var s := Run(Start(threads, total), events).value;
      && (forall k | 0 <= k < |s.claimed| :: 1 <= s.claimed[k] <= total)
      && (forall j, k | 0 <= j < k < |s.claimed| :: s.claimed[j] != s.claimed[k])
  {
    InvStart(threads, total);
    InvRun(Start(threads, total), events);
    TotalIsFixed(Start(threads, total), events);
  }

  lemma {:induction false} TotalIsFixed(s: Sys, events: seq<Event>)
    requires Run(s, events).Some?
    ensures Run(s, events).value.total == s.total && |Run(s, events).value.ws| == |s.ws|
    decreases |events|
  {
    if |events| > 0 {
      TotalIsFixed(Next(s, events[0]).value, events[1..]);
    }
  }

  ghost function Live(s: Sys): int {
    Sum(s.ws, IsRetired)
  }

  lemma {:induction false} SumsComplement(ws: seq<Worker>, f: Worker -> int, g: Worker -> int)
    requires forall k | 0 <= k < |ws| :: f(ws[k]) + g(ws[k]) == 1
    ensures Sum(ws, f) + Sum(ws, g) == |ws|
    decreases |ws|
  {
    if |ws| > 0 {
      SumsComplement(ws[..|ws| - 1], f, g);
    }
  }

  lemma FinishedState(s: Sys)
    requires Inv(s) && s.phase.Finished?
    ensures forall k: nat | k < |s.ws| :: s.ws[k].Gone?
    ensures s.hashes == |s.claimed| && Live(s) + s.failed == |s.ws| && Live(s) >= 0
    ensures Live(s) == 0 ==> s.claimed == []
    ensures s.failed > 0 <==> exists k: nat :: k < |s.ws| && s.ws[k] == Gone(false)
  {
    forall k: nat | k < |s.ws| ensures s.ws[k].Gone? {
      assert Placed(s, k);
    }
    SumBounds(s.ws, IsHashing);
    SumBounds(s.ws, IsFailed);
    SumBounds(s.ws, IsEngaged);
    SumBounds(s.ws, IsRetired);
    SumsComplement(s.ws, IsRetired, IsFailed);
  }

  /** How a finished run ends: with a live worker every ticket from 1 to total was taken and
      hashed, and the counter stands at minus the number of live workers; without one nothing
      was taken. The result is -1 exactly when some worker failed. */
  lemma FinishedRun(threads: nat, total: nat, events: seq<Event>)
    requires Run(Start(threads, total), events).Some? && Run(Start(threads, total), events).value.phase.Finished?
    ensures var s := Run(Start(threads, total), events).value;
      && (Live(s) > 0 ==> |s.claimed| == total && s.hashes == total && s.remaining == -Live(s))
      && (Live(s) > 0 ==> forall t | 1 <= t <= total :: t in s.claimed)
      && (Live(s) == 0 ==> s.claimed == [] && s.hashes == 0 && s.remaining == total)
      && Live(s) + s.failed == threads
      && (s.phase.result == -1 <==> exists k: nat :: k < |s.ws| && s.ws[k] == Gone(false))
      && (s.phase.result != -1 ==> s.phase.result == total)
  {
    InvStart(threads, total);
    InvRun(Start(threads, total), events);
    TotalIsFixed(Start(threads, total), events);
    var s := Run(Start(threads, total), events).value;
    FinishedState(s);
    if Live(s) > 0 {
      forall t | 1 <= t <= total ensures t in s.claimed {
        assert s.claimed[total - t] == t;
      }
    }
  }

  // ----- progress -----

  function Rank(w: Worker): int {
    match w
    case Unstarted => 7
    case Starting => 6
    case Warm => 5
    case Waiting => 4
    case Hashing(_) => 3
    case Pulling => 2
    case Broken => 1
    case Gone(_) => 0
  }

  /** How much of a run is left at most. */
  ghost function Measure(s: Sys): int {
    Sum(s.ws, Rank)
    + 2 * (if s.remaining > 0 then s.remaining else 0)
    + match s.phase case Spawning => 3 case Polling => 2 case Joining => 1 case Finished(_) => 0
  }

  /** Every event uses up some of the measure, so every run is finite. */
  lemma EventsMakeProgress(s: Sys, e: Event)
    requires Inv(s) && Next(s, e).Some?
    ensures Measure(Next(s, e).value) < Measure(s)
  {
    var t := Next(s, e).value;
    if e.Spawn? {
      assert Placed(s, s.spawned);
      SumUpdate(s.ws, Rank, s.spawned, Starting);
    } else if e.EndSpawn? || e.Release? || e.Finish? {
    } else {
      SumUpdate(s.ws, Rank, e.i, t.ws[e.i]);
    }
  }

  lemma {:induction false} RankIsNatural(ws: seq<Worker>)
    ensures Sum(ws, Rank) >= 0
    decreases |ws|
  {
    if |ws| > 0 {
      RankIsNatural(ws[..|ws| - 1]);
    }
  }

  /** No schedule runs longer than the measure of its first state. */
  lemma {:induction false} RunsAreBounded(s: Sys, events: seq<Event>)
    requires Inv(s) && Run(s, events).Some?
    ensures |events| <= Measure(s)
    decreases |events|
  {
    RankIsNatural(s.ws);
    if |events| > 0 {
      InvNext(s, events[0]);
      EventsMakeProgress(s, events[0]);
      RunsAreBounded(Next(s, events[0]).value, events[1..]);
    }
  }

  lemma EnabledEvent(s: Sys) returns (e: Event)
    requires Inv(s) && !s.phase.Finished?
    ensures Next(s, e).Some?
  {
    if k: nat :| k < |s.ws| && s.ws[k].Starting? {
      e := Warmed(k);
    } else if k: nat :| k < |s.ws| && (s.ws[k].Broken? || s.ws[k].Warm?) {
      e := Ready(k);
    } else if k: nat :| k < |s.ws| && s.ws[k].Pulling? {
      e := Take(k);
    } else if k: nat :| k < |s.ws| && s.ws[k].Hashing? {
      e := HashDone(k);
    } else if s.phase.Spawning? {
      e := if s.spawned < |s.ws| then Spawn else EndSpawn;
    } else if s.phase.Polling? {
      forall k: nat | k < |s.ws| ensures IsReady(s.ws[k]) == 1 {
        assert Placed(s, k);
      }
      SumBounds(s.ws, IsReady);
      e := Release;
    } else if k: nat :| k < |s.ws| && s.ws[k].Waiting? {
      e := SeeGo(k);
    } else {
      forall k: nat | k < |s.ws| ensures s.ws[k].Gone? {
        assert Placed(s, k);
      }
      e := Finish;
    }
  }

  /** An unfinished state always has an event to go on with: the protocol cannot deadlock. */
  lemma NeverStuck(s: Sys)
    requires Inv(s) && !s.phase.Finished?
    ensures exists e :: Next(s, e).Some?
  {
    var e := EnabledEvent(s);
  }
}
