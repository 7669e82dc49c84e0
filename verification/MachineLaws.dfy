/** What each instruction does, on plain integers: sums and products modulo 2^64, quotients by
    powers of two, xors and single bits. */
module MachineLaws {
  import opened Words
  import opened Words64
  import opened Rotations
  import opened Bits
  import opened MixLaws
  import opened Walk
  import opened Machine

  // ----- one step -----

  /** The instruction the machine is at. */
  function At(p: Program, m: Vm): Instr {
    p[m.pc % 512]
  }

  /** Only register d changes, to x; the counter moves on. */
  predicate Sets(m: Vm, r: Vm, d: Reg, x: int) {
    r.regs[d] == x && (forall i | 0 <= i < 8 && i != d :: r.regs[i] == m.regs[i])
    && r.pad == m.pad && r.chain == m.chain && r.pc == m.pc + 1
  }

  /** The arithmetic instructions: what register dst becomes, from its old value d and src's s. */
  lemma ArithmeticLaw(p: Program, m: Vm)
    ensures var ins, r := At(p, m), Step(p, m);
      var d: int, s: int := m.regs[ins.dst], m.regs[ins.src];
      && (ins.op.IaddRs? ==>
            Sets(m, r, ins.dst, (d + s * Pow2(ins.shift % 4)) % 0x1_0000_0000_0000_0000))
      && (ins.op.Isub? ==> Sets(m, r, ins.dst, (d - s) % 0x1_0000_0000_0000_0000))
      && (ins.op.Imul? ==> Sets(m, r, ins.dst, d * s % 0x1_0000_0000_0000_0000))
      && (ins.op.Ixor? ==> Sets(m, r, ins.dst, Xor(d, s)))
      && (ins.op.Unknown? ==> r == m.(pc := m.pc + 1))
  {
    var ins := At(p, m);
    var d, s := m.regs[ins.dst], m.regs[ins.src];
    Shl64IsProduct(s, ins.shift % 4);
    SumReduced(d, s * Pow2(ins.shift % 4));
    Xor64IsXor(d, s);
  }

  lemma SumReduced(d: Word64, t: nat)
    ensures (d + t % WORD64) % WORD64 == (d + t) % WORD64
  {
  }

  /** IROR turns dst right by the low six bits of src; MIX xors in src and mixes with imm. */
  lemma RotateAndMixLaw(p: Program, m: Vm)
    ensures var ins, r := At(p, m), Step(p, m);
      var d: int, s: int := m.regs[ins.dst], m.regs[ins.src];
      var n := s % 64;
      && (ins.op.Iror? ==>
            Sets(m, r, ins.dst,
                 if n == 0 then d else Or(Shr(d, n), d * Pow2(64 - n) % 0x1_0000_0000_0000_0000)))
      && (ins.op.MixOp? ==>
            Sets(m, r, ins.dst, r.regs[ins.dst])
            && IsFinalized(Xor(Xor(d, s), ins.imm as int * 0x9e3779b97f4a7c15 % 0x1_0000_0000_0000_0000),
                           r.regs[ins.dst]))
  {
    var ins := At(p, m);
    var d, s := m.regs[ins.dst], m.regs[ins.src];
    Ror64IsShiftOr(d, s % 64);
    Xor64IsXor(d, s);
    MixLaw(Xor64(d, s), ins.imm);
  }

  // ----- branches -----

  lemma OddMask(imm: Word, k: nat)
    ensures var mask := if Odd(imm) then imm else imm + 1;
      Bit(mask, k) == 1 <==> k == 0 || Bit(imm, k) == 1
  {
    var mask := if Odd(imm) then imm else imm + 1;
    ZeroBits(imm, mask, 0);
    if k > 0 {
      BitDown(imm, k);
      BitDown(mask, k);
      assert mask / 2 == imm / 2;
    }
  }

  /** A register meets the mask when it is odd, or has a bit that imm has. */
  lemma MeetsLaw(reg: Word64, imm: Word)
    ensures Meets(reg, imm) <==> reg % 2 == 1 || exists k: nat :: Bit(reg, k) == 1 && Bit(imm, k) == 1
  {
    var mask := if Odd(imm) then imm else imm + 1;
    AndIsZero(reg, mask);
    ZeroBits(reg, imm, mask);
    if Meets(reg, imm) {
      var k: nat :| Bit(reg, k) == 1 && Bit(mask, k) == 1;
      OddMask(imm, k);
    }
    if reg % 2 == 1 {
      OddMask(imm, 0);
      assert Bit(reg, 0) == 1 && Bit(mask, 0) == 1;
    }
    if k: nat :| Bit(reg, k) == 1 && Bit(imm, k) == 1 {
      OddMask(imm, k);
      assert Bit(reg, k) == 1 && Bit(mask, k) == 1;
    }
  }

  /** A branch jumps exactly when it meets its mask, by its signed shift byte; registers, pad and
      chain stay. */
  lemma BranchLaw(p: Program, m: Vm)
    requires At(p, m).op.Cbranch?
    ensures var ins, r := At(p, m), Step(p, m);
      var reg, b: int := m.regs[ins.dst], ins.shift;
      && r.regs == m.regs && r.pad == m.pad && r.chain == m.chain
      && r.pc == if reg % 2 == 1 || exists k: nat :: Bit(reg, k) == 1 && Bit(ins.imm, k) == 1
                 then (m.pc + b + if b < 128 then 0 else 256) % 512
                 else m.pc + 1
  {
    var ins := At(p, m);
    MeetsLaw(m.regs[ins.dst], ins.imm);
    JumpIs(m.pc, ins.shift);
  }

  // ----- memory -----

  /** SP_READ loads the cell that src + imm + chain points at, and chains it. */
  lemma ReadLaw(p: Program, m: Vm)
    requires At(p, m).op.SpRead?
    ensures var ins, r := At(p, m), Step(p, m);
      var s: int, imm: int, chain: int := m.regs[ins.src], ins.imm, m.chain;
      var x := m.pad[(s + imm + chain) % 0x80_0000 / 8];
      Sets(m, r.(chain := m.chain), ins.dst, x) && r.chain == x
  {
    var ins := At(p, m);
    AddressIs(m.regs[ins.src], ins.imm, m.chain);
  }

  lemma AddressIs(base: Word64, imm: Word, chain: Word64)
    ensures Address(base, imm, chain) == (base + imm + chain) % 0x80_0000 / 8
  {
    var t: int, a: int := base + imm, base + imm + chain;
    SumReduced(chain, t);
    Narrow(a, a / WORD64, a % WORD64);
  }

  /** Reducing modulo 2^64 first changes nothing modulo 2^23. */
  lemma Narrow(a: nat, q: nat, r: nat)
    requires a == q * WORD64 + r
    ensures r % 0x80_0000 == a % 0x80_0000
  {
    assert q * WORD64 == q * 0x200_0000_0000 * 0x80_0000;
    AddsMultiple(r, q * 0x200_0000_0000, 0x80_0000);
  }

  /** SP_WRITE xors src into the cell that dst + imm + chain points at, and adds the result to
      the chain. */
  lemma WriteLaw(p: Program, m: Vm)
    requires At(p, m).op.SpWrite?
    ensures var ins, r := At(p, m), Step(p, m);
      var d: int, s: int, imm: int, chain: int := m.regs[ins.dst], m.regs[ins.src], ins.imm, m.chain;
      var at := (d + imm + chain) % 0x80_0000 / 8;
      && r.pad[at] == Xor(m.pad[at], s) && (forall i | 0 <= i < CELLS && i != at :: r.pad[i] == m.pad[i])
      && r.chain == (chain + r.pad[at]) % 0x1_0000_0000_0000_0000 && r.regs == m.regs && r.pc == m.pc + 1
  {
    var ins := At(p, m);
    var d, s := m.regs[ins.dst], m.regs[ins.src];
    AddressIs(d, ins.imm, m.chain);
    var at := Address(d, ins.imm, m.chain);
    Xor64IsXor(m.pad[at], s);
  }
}
