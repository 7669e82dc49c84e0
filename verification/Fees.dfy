/** Bulletproof+ clawback and size estimate of the wallet. */
module Fees {
  import opened Words

  /** The padded output count is the least power of two at least `outputs` and `least`. */
  predicate Pads(log: nat, least: nat, outputs: nat) {
    least <= log && outputs <= Pow2(log) && (log > least ==> Pow2(log - 1) < outputs)
  }

  /** With at most 2^30 outputs the power stays below the sign bit of a 32-bit int. */
  lemma LogFits(log: nat, outputs: nat)
    requires log > 0 && Pow2(log - 1) < outputs <= 0x4000_0000
    ensures log <= 30
  {
    if log > 30 {
      Pow2Of30();
      Pow2Grows(30, log - 1);
    }
  }

  lemma Pow2Of30()
    ensures Pow2(30) == 0x4000_0000
  {
    Pow2Of32();
    assert Pow2(32) == 2 * Pow2(31) == 4 * Pow2(30);
  }

  /** The loop both estimators share; the source's shift never leaves a 32-bit int. */
  method LogPadded(least: nat, outputs: nat) returns (log: nat)
    requires outputs <= 0x4000_0000 && least <= 2
    ensures Pads(log, least, outputs) && log <= 30
  {
    log := least;
    while Pow2(log) < outputs
      invariant least <= log <= 30 && (log > least ==> Pow2(log - 1) < outputs)
      decreases outputs - Pow2(log)
    {
      LogFits(log + 1, outputs);
      log := log + 1;
    }
  }

  lemma PadsInOrder(a: nat, b: nat, least: nat, m: nat, n: nat)
    requires Pads(a, least, m) && Pads(b, least, n) && m <= n
    ensures a <= b
  {
    if b < a {
      Pow2Grows(b, a - 1);
    }
  }

  function ProofSize(log: nat): nat {
    32 * (6 + 2 * (6 + log))
  }

  /** What the padding is charged for, before the four fifths. */
  function Excess(log: nat): int {
    320 * Pow2(log) - ProofSize(log)
  }

  /** Four fifths of it. */
  function ClawbackAt(log: nat): int {
    Excess(log) * 4 / 5
  }

  lemma {:induction false} ExcessGrows(a: nat, b: nat)
    requires 2 <= a <= b
    ensures 0 < Excess(2) && Excess(a) <= Excess(b)
    decreases b - a
  {
    assert Pow2(2) == 4;
    if a < b {
      ExcessGrows(a, b - 1);
      Pow2Grows(2, b - 1);
    }
  }

  /** wallet_clawback; the 64-bit subtraction never underflows. */
  method Clawback(outputs: nat) returns (c: nat)
    requires outputs <= 0x4000_0000
    ensures outputs <= 2 ==> c == 0
    ensures outputs > 2 ==> exists log :: Pads(log, 2, outputs) && Excess(log) > 0 && c == ClawbackAt(log)
  {
    if outputs <= 2 {
      return 0;
    }
    var log := LogPadded(2, outputs);
    var nlr := 2 * (6 + log);
    var bpSize := 32 * (6 + nlr);
    ExcessGrows(2, log);
    c := (320 * Pow2(log) - bpSize) * 4 / 5;
    assert Pads(log, 2, outputs) && c == ClawbackAt(log);
  }

  /** More outputs never cost less, and proof plus clawback pay 256 bytes for every padded output
      and at most a fifth of the proof more. */
  lemma ClawbackCovers(a: nat, b: nat, m: nat, n: nat)
    requires 3 <= m <= n && Pads(a, 2, m) && Pads(b, 2, n)
    ensures 0 < ClawbackAt(a) <= ClawbackAt(b)
    ensures 256 * Pow2(a) <= ProofSize(a) + ClawbackAt(a) <= 256 * Pow2(a) + ProofSize(a) / 5
  {
    PadsInOrder(a, b, 2, m, n);
    ExcessGrows(2, a);
    ExcessGrows(a, b);
  }

  /** The proof bytes the size estimate adds: three elements more without the plus. From three
      outputs on it pads as the clawback does, although its search starts at 0 and not at 2. */
  method ProofBytes(outputs: nat, plus: bool) returns (bytes: nat)
    requires outputs <= 0x4000_0000
    ensures exists log :: Pads(log, 0, outputs) && bytes == ProofSize(log) + 3 + if plus then 0 else 96
    ensures outputs >= 3 ==> exists log :: Pads(log, 2, outputs) && bytes == ProofSize(log) + 3 + if plus then 0 else 96
  {
    var log := LogPadded(0, outputs);
    assert Pow2(0) == 1 && Pow2(1) == 2;
    bytes := (2 * (6 + log) + (if plus then 6 else 4 + 5)) * 32 + 3;
    assert outputs >= 3 ==> Pads(log, 2, outputs);
  }
}
