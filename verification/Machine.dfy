/** The CNA v6 interpreter: registers, scratchpad, and one pass of 512 steps. */
module Machine {
  import opened Words
  import opened Words64
  import opened Iteration
  import opened Walk

  /** The 8 MB pad as 64-bit cells; every access is 8-byte aligned. */
  const CELLS: nat := 0x10_0000

  datatype Core = Core(pc: nat, chain: Word64, regs: seq<Word64>, pad: seq<Word64>) {
    predicate Ok() {
      |regs| == 8 && |pad| == CELLS
    }
  }

  type Vm = m: Core | m.Ok() witness Core(0, 0, Zeros(8), Zeros(CELLS))

  /** The pad cell of an address: the low 23 bits, eight bytes to a cell. */
  function CellOf(addr: Word64): (c: nat)
    ensures c < CELLS
  {
    addr % 0x80_0000 / 8
  }

  function Address(base: Word64, imm: Word, chain: Word64): nat {
    CellOf(Add64(Add64(base, imm), chain))
  }

  /** A branch is taken when the register meets the mask; the mask always has its low bit. */
  predicate Meets(reg: Word64, imm: Word) {
    And(reg, if Odd(imm) then imm else imm + 1) != 0
  }

  predicate Takes(p: Program, m: Vm) {
    var ins := p[SlotOf(m.pc)];
    Meets(m.regs[ins.dst], ins.imm)
  }

  function SetReg(m: Vm, r: Reg, x: Word64): Vm {
    m.(regs := m.regs[r := x], pc := m.pc + 1)
  }

  function Step(p: Program, m: Vm): Vm {
    var ins := p[SlotOf(m.pc)];
    var d, s := m.regs[ins.dst], m.regs[ins.src];
    match ins.op
    case IaddRs => SetReg(m, ins.dst, Add64(d, Shl64(s, ins.shift % 4)))
    case Isub => SetReg(m, ins.dst, Sub64(d, s))
    case Imul => SetReg(m, ins.dst, Mul64(d, s))
    case Ixor => SetReg(m, ins.dst, Xor64(d, s))
    case Iror => SetReg(m, ins.dst, Ror64(d, s % 64))
    case Cbranch => m.(pc := if Takes(p, m) then Target(p, m.pc) else m.pc + 1)
    case SpRead =>
      var x := m.pad[Address(s, ins.imm, m.chain)];
      SetReg(m, ins.dst, x).(chain := x)
    case SpWrite =>
      var at := Address(d, ins.imm, m.chain);
      var x := Xor64(m.pad[at], s);
      m.(pad := m.pad[at := x], chain := Add64(m.chain, x), pc := m.pc + 1)
    case MixOp => SetReg(m, ins.dst, Mix64(Xor64(d, s), ins.imm))
    case Unknown => m.(pc := m.pc + 1)
  }

  function Stepper(p: Program): Vm -> Vm {
    m => Step(p, m)
  }

  /** The state before step i of a pass. */
  function StateAt(p: Program, m: Vm, i: nat): Vm {
    Iterate<Vm>(Stepper(p), m, i)
  }

  /** A pass starts at program counter 0 with an empty chain. */
  function Enter(m: Vm): Vm {
    m.(pc := 0, chain := 0)
  }

  // ----- counting along a pass -----

  ghost function RanMemop(p: Program, m: Vm): nat -> bool {
    (i: nat) => IsMemop(p, SlotOf(StateAt(p, m, i).pc))
  }

  ghost function RanBranch(p: Program, m: Vm): nat -> bool {
    (i: nat) => IsBranch(p, SlotOf(StateAt(p, m, i).pc))
  }

  ghost function TookBranch(p: Program, m: Vm): nat -> bool {
    (i: nat) => IsBranch(p, SlotOf(StateAt(p, m, i).pc)) && Takes(p, StateAt(p, m, i))
  }

  datatype Counters = Counters(memops: nat, seen: nat, taken: nat)

  /** What the instrumented interpreter counts in n steps. */
  ghost predicate IsCountOf(p: Program, m: Vm, n: nat, c: Counters) {
    c.memops == Tally(RanMemop(p, m), n) && c.seen == Tally(RanBranch(p, m), n) && c.taken == Tally(TookBranch(p, m), n)
  }

  // ----- the interpreter as code -----

  ghost predicate Holds(regs: array<Word64>, pad: array<Word64>, m: Vm)
    reads regs, pad
  {
    regs.Length == 8 && pad.Length == CELLS && regs != pad && regs[..] == m.regs && pad[..] == m.pad
  }

  /** One step of the switch in traced_execute. */
  method Execute(p: Program, pc: nat, chain: Word64, regs: array<Word64>, pad: array<Word64>, ghost m: Vm)
    returns (next: nat, link: Word64)
    requires Holds(regs, pad, m) && m.pc == pc && m.chain == chain
    modifies regs, pad
    ensures Holds(regs, pad, Step(p, m)) && next == Step(p, m).pc && link == Step(p, m).chain
  {
    var ins := p[pc % SIZE];
    next, link := pc + 1, chain;
    match ins.op
    case IaddRs => regs[ins.dst] := Add64(regs[ins.dst], Shl64(regs[ins.src], ins.shift % 4));
    case Isub => regs[ins.dst] := Sub64(regs[ins.dst], regs[ins.src]);
    case Imul => regs[ins.dst] := Mul64(regs[ins.dst], regs[ins.src]);
    case Ixor => regs[ins.dst] := Xor64(regs[ins.dst], regs[ins.src]);
    case Iror => regs[ins.dst] := Ror64(regs[ins.dst], regs[ins.src] % 64);
    case Cbranch =>
      if Meets(regs[ins.dst], ins.imm) {
        next := (pc + Offset(ins.shift) + SIZE) % SIZE;
      }
    case SpRead =>
      var addr := Address(regs[ins.src], ins.imm, chain);
      regs[ins.dst] := pad[addr];
      link := regs[ins.dst];
    case SpWrite =>
      var addr := Address(regs[ins.dst], ins.imm, chain);
      var tmp := Xor64(pad[addr], regs[ins.src]);
      pad[addr] := tmp;
      link := Add64(chain, tmp);
    case MixOp => regs[ins.dst] := Mix64(Xor64(regs[ins.dst], regs[ins.src]), ins.imm);
    case Unknown =>
  }

  /** traced_execute: 512 steps from program counter 0, counting as it goes. */
  method TracedExecute(p: Program, regs: array<Word64>, pad: array<Word64>, ghost m: Vm) returns (c: Counters)
    requires Holds(regs, pad, m)
    modifies regs, pad
    ensures Holds(regs, pad, StateAt(p, Enter(m), SIZE)) && IsCountOf(p, Enter(m), SIZE, c)
  {
    var pc: nat, chain: Word64 := 0, 0;
    c := Counters(0, 0, 0);
    ghost var start, now := Enter(m), Enter(m);
    for step := 0 to SIZE
      invariant now == StateAt(p, start, step) && Holds(regs, pad, now) && now.pc == pc && now.chain == chain
      invariant IsCountOf(p, start, step, c)
    {
      var op := p[pc % SIZE].op;
      CountStep(p, start, step, c);
      if op.Cbranch? {
        c := c.(seen := c.seen + 1);
        if Meets(regs[p[pc % SIZE].dst], p[pc % SIZE].imm) {
          c := c.(taken := c.taken + 1);
        }
      }
      if op.SpRead? || op.SpWrite? {
        c := c.(memops := c.memops + 1);
      }
      pc, chain := Execute(p, pc, chain, regs, pad, now);
      now := Step(p, now);
    }
  }

  lemma StateAtNext(p: Program, m: Vm, i: nat)
    ensures StateAt(p, m, i + 1) == Step(p, StateAt(p, m, i))
  {
    IterateLast<Vm>(Stepper(p), m, i);
  }

  lemma CountStep(p: Program, m: Vm, i: nat, c: Counters)
    requires IsCountOf(p, m, i, c)
    ensures StateAt(p, m, i + 1) == Step(p, StateAt(p, m, i))
    ensures var x := StateAt(p, m, i);
      IsCountOf(p, m, i + 1, Counters(
        c.memops + (if IsMemop(p, SlotOf(x.pc)) then 1 else 0),
        c.seen + (if IsBranch(p, SlotOf(x.pc)) then 1 else 0),
        c.taken + (if IsBranch(p, SlotOf(x.pc)) && Takes(p, x) then 1 else 0)))
  {
    StateAtNext(p, m, i);
  }

  // ----- the interpreter against the walk -----

  /** Step i does not fall through a branch. */
  predicate Follows(p: Program, m: Vm, i: nat) {
    IsBranch(p, SlotOf(StateAt(p, m, i).pc)) ==> Takes(p, StateAt(p, m, i))
  }

  /** Every branch among the first n steps is taken. */
  ghost predicate AllTaken(p: Program, m: Vm, n: nat) {
    forall i: nat | i < n :: Follows(p, m, i)
  }

  lemma StepFollowsWalk(p: Program, m: Vm)
    requires IsBranch(p, SlotOf(m.pc)) ==> Takes(p, m)
    ensures Step(p, m).pc == NextPc(p, m.pc)
  {
  }

  /** Up to the first branch it does not take, the interpreter is where the walk is. */
  lemma {:induction false} SameSlots(p: Program, m: Vm, n: nat)
    requires SlotOf(m.pc) == 0 && AllTaken(p, m, n)
    ensures SlotOf(StateAt(p, m, n).pc) == SlotAt(p, n)
    decreases n
  {
    if n > 0 {
      SameSlots(p, m, n - 1);
      assert Follows(p, m, n - 1);
      var x := StateAt(p, m, n - 1);
      StateAtNext(p, m, n - 1);
      StepFollowsWalk(p, x);
      NextPcBySlot(p, x.pc);
      SlotAtNext(p, n - 1);
    }
  }

  lemma {:induction false} TalliesApart(hit: nat -> bool, also: nat -> bool, k: nat, n: nat)
    requires k <= n && forall i: nat | i < k :: hit(i) == also(i)
    ensures k == n ==> Tally(hit, n) == Tally(also, n)
    ensures Tally(hit, n) - Tally(also, n) <= n - k && Tally(also, n) - Tally(hit, n) <= n - k
    decreases n
  {
    if n > 0 {
      TalliesApart(hit, also, if k == n then n - 1 else k, n - 1);
    }
  }

  lemma {:induction false} TallyOfSubset(hit: nat -> bool, some: nat -> bool, n: nat)
    requires forall i: nat | some(i) :: hit(i)
    ensures Tally(some, n) <= Tally(hit, n)
    ensures Tally(some, n) == Tally(hit, n) <==> forall i: nat | i < n && hit(i) :: some(i)
    decreases n
  {
    if n > 0 {
      TallyOfSubset(hit, some, n - 1);
    }
  }

  /** The counters show whether a pass followed the walk: it did exactly when every branch
      it saw was taken. */
  lemma TakenMeansFollowed(p: Program, m: Vm, n: nat, c: Counters)
    requires IsCountOf(p, m, n, c)
    ensures c.taken == c.seen <==> AllTaken(p, m, n)
  {
    TallyOfSubset(RanBranch(p, m), TookBranch(p, m), n);
    assert forall i: nat :: Follows(p, m, i) <==> (RanBranch(p, m)(i) ==> TookBranch(p, m)(i));
  }

  lemma WalkAgreesUpTo(p: Program, m: Vm, k: nat)
    requires SlotOf(m.pc) == 0 && AllTaken(p, m, k)
    ensures forall i: nat | i <= k :: RanMemop(p, m)(i) == MemopAt(p)(i) && RanBranch(p, m)(i) == BranchAt(p)(i)
  {
    forall i: nat | i <= k
      ensures RanMemop(p, m)(i) == MemopAt(p)(i) && RanBranch(p, m)(i) == BranchAt(p)(i)
    {
      SameSlots(p, m, i);
    }
  }

  /** A pass in which every branch is taken counts what the screen predicts, whatever the
      registers and the pad. */
  lemma ScreenIsExact(p: Program, m: Vm, c: Counters, s: Screen)
    requires IsCountOf(p, Enter(m), SIZE, c) && IsScreenOf(p, s) && c.taken == c.seen
    ensures c.memops == s.memops && c.seen == s.cbranches
  {
    TakenMeansFollowed(p, Enter(m), SIZE, c);
    WalkAgreesUpTo(p, Enter(m), SIZE);
    TalliesApart(RanMemop(p, Enter(m)), MemopAt(p), SIZE, SIZE);
    TalliesApart(RanBranch(p, Enter(m)), BranchAt(p), SIZE, SIZE);
  }

  /** When step k is the first branch not taken, the screen is off by at most the steps left. */
  lemma ScreenIsClose(p: Program, m: Vm, c: Counters, s: Screen, k: nat)
    requires IsCountOf(p, Enter(m), SIZE, c) && IsScreenOf(p, s)
    requires k < SIZE && AllTaken(p, Enter(m), k) && !Follows(p, Enter(m), k)
    ensures -(SIZE - 1 - k) <= c.memops - s.memops <= SIZE - 1 - k
    ensures -(SIZE - 1 - k) <= c.seen - s.cbranches <= SIZE - 1 - k
  {
    WalkAgreesUpTo(p, Enter(m), k);
    TalliesApart(RanMemop(p, Enter(m)), MemopAt(p), k + 1, SIZE);
    TalliesApart(RanBranch(p, Enter(m)), BranchAt(p), k + 1, SIZE);
  }

  /** The machine after j passes of one nonce. */
  function AfterPasses(p: Program, m: Vm, j: nat): Vm {
    Iterate<Vm>((x: Vm) => StateAt(p, Enter(x), SIZE), m, j)
  }

  /** Two passes of one nonce, however far apart, that take all their branches count the same. */
  lemma PassesRepeat(p: Program, m: Vm, i: nat, j: nat, c: Counters, d: Counters)
    requires IsCountOf(p, Enter(AfterPasses(p, m, i)), SIZE, c) && c.taken == c.seen
    requires IsCountOf(p, Enter(AfterPasses(p, m, j)), SIZE, d) && d.taken == d.seen
    ensures c == d
  {
    var s := Screen(Tally(MemopAt(p), SIZE), |Visited(p, SIZE)|, Tally(BranchAt(p), SIZE));
    ScreenIsExact(p, AfterPasses(p, m, i), c, s);
    ScreenIsExact(p, AfterPasses(p, m, j), d, s);
  }
}
