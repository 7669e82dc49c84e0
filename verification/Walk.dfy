/** Programs of the CNA v6 virtual machine and the register-free walk over them. */
module Walk {
  import opened Words
  import opened Iteration
  import opened Rho

  const SIZE: nat := 512

  datatype Op = IaddRs | Isub | Imul | Ixor | Iror | Cbranch | SpRead | SpWrite | MixOp | Unknown

  type Reg = r: nat | r < 8

  datatype Instr = Instr(op: Op, dst: Reg, src: Reg, shift: Byte, imm: Word)

  type Program = p: seq<Instr> | |p| == SIZE witness seq(SIZE, _ => Instr(Unknown, 0, 0, 0, 0))

  type Slot = s: nat | s < SIZE

  predicate IsMemop(p: Program, slot: Slot) {
    p[slot].op.SpRead? || p[slot].op.SpWrite?
  }

  predicate IsBranch(p: Program, slot: Slot) {
    p[slot].op.Cbranch?
  }

  /** The shift byte read as a signed offset. */
  function Offset(shift: Byte): (o: int)
    ensures -128 <= o <= 127 && (o - shift) % 256 == 0
  {
    if shift < 128 then shift else shift - 256
  }

  function SlotOf(pc: nat): Slot {
    pc % SIZE
  }

  /** The program counter after a taken branch at pc. */
  function Target(p: Program, pc: nat): nat {
    (pc + Offset(p[SlotOf(pc)].shift) + SIZE) % SIZE
  }

  /** The program counter of the walk that takes every branch. */
  function NextPc(p: Program, pc: nat): nat {
    if IsBranch(p, SlotOf(pc)) then Target(p, pc) else pc + 1
  }

  /** The walk on slots alone. */
  function Succ(p: Program, slot: Slot): Slot {
    SlotOf(NextPc(p, slot))
  }

  lemma JumpIs(pc: nat, b: Byte)
    ensures (pc + Offset(b) + SIZE) % SIZE == (pc + b + if b < 128 then 0 else 256) % 512
  {
  }

  /** A branch byte below 128 goes forward, any other backward by 256 minus it; everything
      else goes on to the next slot. */
  lemma SuccLaw(p: Program, s: Slot)
    ensures var b: int := p[s].shift;
      Succ(p, s) == if !p[s].op.Cbranch? then (s + 1) % 512
                    else (s + b + if b < 128 then 0 else 256) % 512
  {
    JumpIs(s, p[s].shift);
    InRange(s);
  }

  lemma InRange(s: Slot)
    ensures SlotOf(s) == s
  {
  }

  function Successor(p: Program): Slot -> Slot {
    slot => Succ(p, slot)
  }

  /** The slot the all-taken walk visits at step i. */
  function SlotAt(p: Program, i: nat): Slot {
    Iterate<Slot>(Successor(p), 0, i)
  }

  lemma SlotAtNext(p: Program, i: nat)
    ensures SlotAt(p, i + 1) == Succ(p, SlotAt(p, i))
  {
    IterateLast<Slot>(Successor(p), 0, i);
  }

  /** A program counter beyond the program does not change where the walk goes. */
  lemma NextPcBySlot(p: Program, pc: nat)
    ensures SlotOf(NextPc(p, pc)) == Succ(p, SlotOf(pc))
  {
    var s := SlotOf(pc);
    assert SlotOf(s) == s;
    SlotsAdd(pc, 1);
    SlotsAdd(pc, Offset(p[s].shift) + SIZE);
  }

  lemma SlotsAdd(pc: nat, k: nat)
    ensures (pc + k) % SIZE == (pc % SIZE + k) % SIZE
  {
  }

  // ----- counting along the walk -----

  /** How many i below n satisfy `hit`. */
  ghost function Tally(hit: nat -> bool, n: nat): nat
    decreases n, hit
  {
    if n == 0 then 0 else Tally(hit, n - 1) + if hit(n - 1) then 1 else 0
  }

  ghost function MemopAt(p: Program): nat -> bool {
    (i: nat) => IsMemop(p, SlotAt(p, i))
  }

  ghost function BranchAt(p: Program): nat -> bool {
    (i: nat) => IsBranch(p, SlotAt(p, i))
  }

  /** The slots among the first n steps. */
  ghost function Visited(p: Program, n: nat): set<Slot> {
    Seen<Slot>(Successor(p), 0, n)
  }

  datatype Screen = Screen(memops: nat, distinct: nat, cbranches: nat)

  /** What screen_program reports. */
  ghost predicate IsScreenOf(p: Program, s: Screen) {
    s.memops == Tally(MemopAt(p), SIZE) && s.cbranches == Tally(BranchAt(p), SIZE) && s.distinct == |Visited(p, SIZE)|
  }

  lemma VisitedGrows(p: Program, n: nat)
    ensures Visited(p, n + 1) == Visited(p, n) + {SlotAt(p, n)}
    ensures |Visited(p, n + 1)| == |Visited(p, n)| + if SlotAt(p, n) in Visited(p, n) then 0 else 1
  {
    SeenGrows<Slot>(Successor(p), 0, n);
    if SlotAt(p, n) in Visited(p, n) {
      assert Visited(p, n + 1) == Visited(p, n);
    }
  }

  /** seen[] marks the slots of the first n steps. */
  ghost predicate Marks(seen: array<bool>, p: Program, n: nat)
    reads seen
  {
    seen.Length == SIZE && forall v: Slot :: seen[v] <==> v in Visited(p, n)
  }

  method MarkSeen(seen: array<bool>, slot: Slot, ghost p: Program, ghost n: nat) returns (isNew: bool)
    requires Marks(seen, p, n) && slot == SlotAt(p, n)
    modifies seen
    ensures Marks(seen, p, n + 1)
    ensures |Visited(p, n + 1)| == |Visited(p, n)| + if isNew then 1 else 0
  {
    VisitedGrows(p, n);
    isNew := !seen[slot];
    if !seen[slot] {
      seen[slot] := true;
    }
  }

  /** screen_program: 512 steps with every branch taken. */
  method ScreenProgram(p: Program) returns (s: Screen)
    ensures IsScreenOf(p, s)
  {
    var seen := new bool[SIZE](_ => false);
    var pc: nat, memops: nat, distinct: nat, cbr: nat := 0, 0, 0, 0;
    assert Visited(p, 0) == {};
    for step := 0 to SIZE
      invariant SlotOf(pc) == SlotAt(p, step)
      invariant memops == Tally(MemopAt(p), step) && cbr == Tally(BranchAt(p), step)
      invariant distinct == |Visited(p, step)| && Marks(seen, p, step)
    {
      var slot := pc % SIZE;
      var next := pc + 1;
      var isNew := MarkSeen(seen, slot, p, step);
      if isNew {
        distinct := distinct + 1;
      }
      if p[slot].op.SpRead? || p[slot].op.SpWrite? {
        memops := memops + 1;
      }
      if p[slot].op.Cbranch? {
        cbr := cbr + 1;
        next := (pc + Offset(p[slot].shift) + SIZE) % SIZE;
      }
      NextPcBySlot(p, pc);
      SlotAtNext(p, step);
      pc := next;
    }
    s := Screen(memops, distinct, cbr);
  }

  /** estimate_memops: the same walk, counting memory operations only. */
  method EstimateMemops(p: Program) returns (memops: nat)
    ensures forall s | IsScreenOf(p, s) :: memops == s.memops
    ensures memops == Tally(MemopAt(p), SIZE)
  {
    var pc: nat := 0;
    memops := 0;
    for step := 0 to SIZE
      invariant SlotOf(pc) == SlotAt(p, step) && memops == Tally(MemopAt(p), step)
    {
      var ins := p[pc % SIZE];
      var next := pc + 1;
      if ins.op.SpRead? || ins.op.SpWrite? {
        memops := memops + 1;
      }
      if ins.op.Cbranch? {
        next := (pc + Offset(ins.shift) + SIZE) % SIZE;
      }
      NextPcBySlot(p, pc);
      SlotAtNext(p, step);
      pc := next;
    }
  }

  // ----- the shape of the walk -----

  predicate UpTo(v: Slot, n: nat) {
    v < n
  }

  ghost function SlotsBelow(n: nat): set<Slot> {
    set v: Slot | 0 <= v < n && UpTo(v, n)
  }

  lemma {:induction false} CountSlots(n: nat)
    requires n <= SIZE
    ensures |SlotsBelow(n)| == n
  {
    if n == 0 {
      assert SlotsBelow(0) == {};
    } else {
      CountSlots(n - 1);
      assert forall v: Slot :: UpTo(v, n) <==> UpTo(v, n - 1) || v == n - 1;
      assert SlotsBelow(n) == SlotsBelow(n - 1) + {n - 1};
    }
  }

  /** The walk is a rho: its first `distinct` slots are pairwise different, every later slot
      repeats one of them, and 512 steps reach whatever any longer walk reaches. */
  lemma WalkIsRho(p: Program, s: Screen)
    requires IsScreenOf(p, s)
    ensures 1 <= s.distinct <= SIZE
    ensures forall i: nat, j: nat | i < j < s.distinct :: SlotAt(p, i) != SlotAt(p, j)
    ensures forall n: nat | n >= s.distinct :: SlotAt(p, n) in Visited(p, s.distinct)
    ensures forall n: nat | n >= s.distinct :: Visited(p, n) == Visited(p, s.distinct)
  {
    var all := SlotsBelow(SIZE);
    assert forall v: Slot :: UpTo(v, SIZE) && v in all;
    CountSlots(SIZE);
    RhoShape<Slot>(Successor(p), 0, all);
    SeenStaysInside<Slot>(Successor(p), 0, all, SIZE);
    SubsetIsSmaller(Visited(p, SIZE), all);
    assert SlotAt(p, 0) in Visited(p, SIZE);
  }

  lemma {:induction false} TallyZero(hit: nat -> bool, n: nat)
    ensures Tally(hit, n) == 0 <==> forall i: nat | i < n :: !hit(i)
  {
    if n > 0 {
      TallyZero(hit, n - 1);
    }
  }

  /** No memory operation is counted exactly when no walk, however long, meets one. */
  lemma NoMemopsMeansNone(p: Program, s: Screen)
    requires IsScreenOf(p, s)
    ensures s.memops == 0 <==> forall n: nat :: !IsMemop(p, SlotAt(p, n))
  {
    TallyZero(MemopAt(p), SIZE);
    if s.memops == 0 {
      forall n: nat ensures !IsMemop(p, SlotAt(p, n)) {
        assert MemopAt(p)(n) == IsMemop(p, SlotAt(p, n));
        if n >= SIZE {
          ReachedWithinSize(p, n);
          var i: nat :| i < SIZE && SlotAt(p, i) == SlotAt(p, n);
          assert !MemopAt(p)(i);
        }
      }
    } else {
      var i: nat :| i < SIZE && MemopAt(p)(i);
    }
  }

  lemma ReachedWithinSize(p: Program, n: nat)
    requires n >= SIZE
    ensures exists i: nat :: i < SIZE && SlotAt(p, i) == SlotAt(p, n)
  {
    var s := Screen(Tally(MemopAt(p), SIZE), |Visited(p, SIZE)|, Tally(BranchAt(p), SIZE));
    WalkIsRho(p, s);
    var i: nat :| i < s.distinct && Iterate<Slot>(Successor(p), 0, i) == SlotAt(p, n);
    assert SlotAt(p, i) == SlotAt(p, n);
  }
}
