/** The HC128_State object and the code that updates it in place. */
module HC128 {
  import opened Words
  import opened Iteration
  import opened Cipher
  import opened Blocks
  import opened Setup

  // ----- the unrolled block -----

  ghost predicate Separate(own: array<Word>, other: array<Word>, ks: array<Word>) {
    own.Length == 512 && other.Length == 512 && ks.Length == 16 && own != other && own != ks && other != ks
  }

  ghost predicate Holds(own: array<Word>, other: array<Word>, ks: array<Word>, l: Lane)
    reads own, other, ks
  {
    own[..] == l.own && other[..] == l.other && ks[..] == l.ks
  }

  /** The lanes before and after each of the sixteen steps of a block. */
  ghost predicate Trace(mode: Mode, half: Half, cc: int, ls: seq<Lane>) {
    0 <= cc <= 496 && cc % 16 == 0 && |ls| == 17 && forall s | 0 <= s < 16 :: Follows(mode, half, cc, ls, s)
  }

  ghost predicate Follows(mode: Mode, half: Half, cc: int, ls: seq<Lane>, s: int)
    requires 0 <= cc <= 496 && |ls| == 17 && 0 <= s < 16
  {
    ls[s].Ok() && ls[s + 1] == Cell(mode, half, ls[s], cc + s)
  }

  /** step_P, step_Q, update_P and update_Q: one table cell, read and written through
      the five cells the caller names. */
  method Macro(mode: Mode, half: Half, own: array<Word>, other: array<Word>, ks: array<Word>,
               m0: int, m511: int, m3: int, m10: int, m12: int, s: int, ghost cc: int, ghost ls: seq<Lane>)
    requires Separate(own, other, ks) && Trace(mode, half, cc, ls) && 0 <= s < 16 && m0 == cc + s
    requires m511 == Back(m0, 511) && m3 == Back(m0, 3) && m10 == Back(m0, 10) && m12 == Back(m0, 12)
    requires Holds(own, other, ks, ls[s])
    modifies own, ks
    ensures Holds(own, other, ks, ls[s + 1])
  {
    ghost var r := ls[s];
    assert Follows(mode, half, cc, ls, s);
    var tem0 := Rot(half, own[m511], 23);
    var tem1 := Rot(half, own[m3], 10);
    var tem2 := Rot(half, own[m10], 8);
    FeedIsG(half, own[m3], own[m10], own[m511]);
    own[m0] := Add(own[m0], Add(tem2, XorW(tem0, tem1)));
    ghost var fed := r.own[m0 := Fed(half, r.own, m0)];
    assert own[..] == fed;
    var a := own[m12] % 256;
    var c := own[m12] / 0x1_0000 % 256;
    var tem3 := Add(other[a], other[256 + c]);
    assert tem3 == Tap(fed, r.other, m0) == Tap(r.own, r.other, m0);
    if mode == Key {
      ks[s] := XorW(tem3, own[m0]);
      SlotOf(cc, s);
    } else {
      own[m0] := XorW(tem3, own[m0]);
    }
  }

  lemma SlotOf(cc: int, s: int)
    requires cc % 16 == 0 && 0 <= s < 16
    ensures (cc + s) % 16 == s
  {
  }

  method FirstEight(mode: Mode, half: Half, own: array<Word>, other: array<Word>, ks: array<Word>,
                   cc: int, dd: int, ee: int, ghost ls: seq<Lane>)
    requires Separate(own, other, ks) && Trace(mode, half, cc, ls) && (cc == 0 || 16 <= cc)
    requires dd == (if cc == 496 then 0 else cc + 16) && ee == (if cc == 0 then 496 else cc - 16)
    requires Holds(own, other, ks, ls[0])
    modifies own, ks
    ensures Holds(own, other, ks, ls[8])
  {
    Macro(mode, half, own, other, ks, cc + 0, cc + 1, ee + 13, ee + 6, ee + 4, 0, cc, ls);
    Macro(mode, half, own, other, ks, cc + 1, cc + 2, ee + 14, ee + 7, ee + 5, 1, cc, ls);
    Macro(mode, half, own, other, ks, cc + 2, cc + 3, ee + 15, ee + 8, ee + 6, 2, cc, ls);
    Macro(mode, half, own, other, ks, cc + 3, cc + 4, cc + 0, ee + 9, ee + 7, 3, cc, ls);
    Macro(mode, half, own, other, ks, cc + 4, cc + 5, cc + 1, ee + 10, ee + 8, 4, cc, ls);
    Macro(mode, half, own, other, ks, cc + 5, cc + 6, cc + 2, ee + 11, ee + 9, 5, cc, ls);
    Macro(mode, half, own, other, ks, cc + 6, cc + 7, cc + 3, ee + 12, ee + 10, 6, cc, ls);
    Macro(mode, half, own, other, ks, cc + 7, cc + 8, cc + 4, ee + 13, ee + 11, 7, cc, ls);
  }

  method SecondEight(mode: Mode, half: Half, own: array<Word>, other: array<Word>, ks: array<Word>,
                   cc: int, dd: int, ee: int, ghost ls: seq<Lane>)
    requires Separate(own, other, ks) && Trace(mode, half, cc, ls) && (cc == 0 || 16 <= cc)
    requires dd == (if cc == 496 then 0 else cc + 16) && ee == (if cc == 0 then 496 else cc - 16)
    requires Holds(own, other, ks, ls[8])
    modifies own, ks
    ensures Holds(own, other, ks, ls[16])
  {
    Macro(mode, half, own, other, ks, cc + 8, cc + 9, cc + 5, ee + 14, ee + 12, 8, cc, ls);
    Macro(mode, half, own, other, ks, cc + 9, cc + 10, cc + 6, ee + 15, ee + 13, 9, cc, ls);
    Macro(mode, half, own, other, ks, cc + 10, cc + 11, cc + 7, cc + 0, ee + 14, 10, cc, ls);
    Macro(mode, half, own, other, ks, cc + 11, cc + 12, cc + 8, cc + 1, ee + 15, 11, cc, ls);
    Macro(mode, half, own, other, ks, cc + 12, cc + 13, cc + 9, cc + 2, cc + 0, 12, cc, ls);
    Macro(mode, half, own, other, ks, cc + 13, cc + 14, cc + 10, cc + 3, cc + 1, 13, cc, ls);
    Macro(mode, half, own, other, ks, cc + 14, cc + 15, cc + 11, cc + 4, cc + 2, 14, cc, ls);
    Macro(mode, half, own, other, ks, cc + 15, dd + 0, cc + 12, cc + 5, cc + 3, 15, cc, ls);
  }

  method AllSixteen(mode: Mode, half: Half, own: array<Word>, other: array<Word>, ks: array<Word>,
                    cc: int, dd: int, ee: int, ghost ls: seq<Lane>)
    requires Separate(own, other, ks) && Trace(mode, half, cc, ls) && (cc == 0 || 16 <= cc)
    requires dd == (if cc == 496 then 0 else cc + 16) && ee == (if cc == 0 then 496 else cc - 16)
    requires Holds(own, other, ks, ls[0])
    modifies own, ks
    ensures Holds(own, other, ks, ls[16])
  {
    FirstEight(mode, half, own, other, ks, cc, dd, ee, ls);
    SecondEight(mode, half, own, other, ks, cc, dd, ee, ls);
  }

  lemma Neighbours(cc: int)
    requires 0 <= cc <= 496 && cc % 16 == 0
    ensures cc == 0 || 16 <= cc
    ensures (cc + 16) % 512 == if cc == 496 then 0 else cc + 16
    ensures (cc - 16) % 512 == if cc == 0 then 496 else cc - 16
  {
  }

  method Sixteen(mode: Mode, half: Half, own: array<Word>, other: array<Word>, ks: array<Word>,
                 cc: int, dd: int, ee: int)
    requires Separate(own, other, ks) && 0 <= cc <= 496 && cc % 16 == 0
    requires dd == (cc + 16) % 512 && ee == (cc - 16) % 512
    modifies own, ks
    ensures Holds(own, other, ks, Cells(mode, half, Lane(old(own[..]), old(other[..]), old(ks[..])), cc, 16))
  {
    Neighbours(cc);
    ghost var ls := TraceOf(mode, half, Lane(own[..], other[..], ks[..]), cc);
    AllSixteen(mode, half, own, other, ks, cc, dd, ee, ls);
  }

  ghost function TraceOf(mode: Mode, half: Half, l: Lane, cc: int): (ls: seq<Lane>)
    requires l.Ok() && 0 <= cc <= 496 && cc % 16 == 0
    ensures Trace(mode, half, cc, ls) && ls[0] == l && ls[16] == Cells(mode, half, l, cc, 16)
  {
    seq(17, n requires 0 <= n <= 16 => Cells(mode, half, l, cc, n))
  }

  // ----- the state object -----

  class State {
    const P: array<Word>
    const Q: array<Word>
    const keystream: array<Word>
    var counter1024: nat

    ghost predicate Valid()
      reads this
    {
      Separate(P, Q, keystream) && counter1024 < 1024 && counter1024 % 16 == 0
    }

    /** An HC128_State as declared: arrays in place, contents arbitrary. */
    constructor ()
      ensures Separate(P, Q, keystream) && fresh(P) && fresh(Q) && fresh(keystream)
    {
      P, Q, keystream := new Word[512], new Word[512], new Word[16];
    }

    /** Assignment of one HC128_State to another. */
    constructor Copy(from: State)
      requires from.Valid()
      ensures Valid() && Value() == from.Value() && fresh(P) && fresh(Q) && fresh(keystream)
    {
      P := new Word[512](i requires 0 <= i < 512 && from.P.Length == 512 reads from.P => from.P[i]);
      Q := new Word[512](i requires 0 <= i < 512 && from.Q.Length == 512 reads from.Q => from.Q[i]);
      var ks := from.keystream;
      keystream := new Word[16](i requires 0 <= i < 16 && ks.Length == 16 reads ks => ks[i]);
      counter1024 := from.counter1024;
      new;
      assert P[..] == from.P[..] && Q[..] == from.Q[..] && keystream[..] == from.keystream[..];
    }

    ghost function Value(): Gen
      requires Valid()
      reads this, P, Q, keystream
    {
      Snapshot(P[..], Q[..], keystream[..], counter1024)
    }

    /** The body HC128_NextKeys and UpdateSixteenSteps share: the unrolled block and the counter. */
    method Block(mode: Mode)
      requires Valid()
      modifies this, P, Q, keystream
      ensures Valid() && Value() == BlockRun(mode, old(Value()), 16)
    {
      ghost var g := Value();
      BlockCounters(counter1024);
      var cc := counter1024 % 512;
      var dd := (cc + 16) % 512;
      var ee := (cc - 16) % 512;
      if counter1024 < 512 {
        Sixteen(mode, OnP, P, Q, keystream, cc, dd, ee);
      } else {
        Sixteen(mode, OnQ, Q, P, keystream, cc, dd, ee);
      }
      counter1024 := (counter1024 + 16) % 1024;
    }

    method NextKeys()
      requires Valid()
      modifies this, P, Q, keystream
      ensures Valid() && Value() == Cipher.NextKeys(old(Value()))
    {
      BlockIsSteps(Key, Stepper(Key), Value(), 16);
      Block(Key);
    }

    /** The warm-up loop of HC128_Init: 64 blocks of 16 feedback steps. */
    method WarmUp(ghost f: Gen -> Gen)
      requires Valid() && Names(f, Warm)
      modifies this, P, Q, keystream
      ensures Valid() && Value() == Iterate(f, old(Value()), 1024)
    {
      ghost var g := Value();
      for i := 0 to 64
        invariant Valid() && Value() == Iterate(f, g, 16 * i)
      {
        UpdateSixteenSteps(f);
        IterateAdd(f, g, 16 * i, 16);
      }
    }

    method UpdateSixteenSteps(ghost f: Gen -> Gen)
      requires Valid() && Names(f, Warm)
      modifies this, P, Q, keystream
      ensures Valid() && Value() == Iterate(f, old(Value()), 16)
    {
      BlockIsSteps(Warm, f, Value(), 16);
      Block(Warm);
    }

    /** HC128_Init; the keystream buffer keeps its old words. */
    method Init(key: seq<Byte>, iv: seq<Byte>)
      requires Separate(P, Q, keystream) && |key| == |iv| == 16
      modifies this, P, Q, keystream
      ensures Valid() && Value() == Cipher.Init(key, iv, old(keystream[..]))
    {
      LoadTables(P, Q, key, iv);
      counter1024 := 0;
      assert Value() == Loaded(key, iv, old(keystream[..]));
      WarmUp(Stepper(Warm));
    }
  }
}
