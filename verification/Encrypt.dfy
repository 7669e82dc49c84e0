/** HC128_EncryptMessage: the state object advances block by block, and the ciphertext is
    written into a buffer that may be the message's own. */
module Encrypt {
  import opened Words
  import opened Cipher
  import opened Stream
  import opened HC128

  /** `after` is `before` with `bytes` written at `at`. */
  ghost predicate Wrote(before: seq<Byte>, after: seq<Byte>, at: nat, bytes: seq<Byte>) {
    at + |bytes| <= |before| == |after| &&
    forall k | 0 <= k < |after| :: after[k] == if at <= k < at + |bytes| then bytes[k - at] else before[k]
  }

  lemma WroteMore(before: seq<Byte>, mid: seq<Byte>, after: seq<Byte>, at: nat, a: seq<Byte>, on: nat, b: seq<Byte>)
    requires Wrote(before, mid, at, a) && on == at + |a| && Wrote(mid, after, on, b)
    ensures Wrote(before, after, at, a + b)
  {
  }

  /** One 32-bit word of the 64-byte path: load, xor, store. */
  method XorWord(message: seq<Byte>, mo: nat, ciphertext: array<Byte>, co: nat, w: Word)
    requires mo + 4 <= |message| && co + 4 <= ciphertext.Length
    modifies ciphertext
    ensures Wrote(old(ciphertext[..]), ciphertext[..], co,
                  seq(4, k requires 0 <= k < 4 => XorB(message[mo + k], LeByte(w, k))))
  {
    var x := XorW(Le32(message, mo), w);
    ciphertext[co] := LeByte(x, 0);
    ciphertext[co + 1] := LeByte(x, 1);
    ciphertext[co + 2] := LeByte(x, 2);
    ciphertext[co + 3] := LeByte(x, 3);
    forall k | 0 <= k < 4 ensures LeByte(x, k) == XorB(message[mo + k], LeByte(w, k)) {
      LeByteOfLe32(message, mo, k);
      XorWBytes(Le32(message, mo), w, k);
    }
  }

  /** The sixteen words of one 64-byte block. */
  method XorBlock(message: seq<Byte>, ciphertext: array<Byte>, co: nat, ks: seq<Word>)
    requires |message| == 64 && co + 64 <= ciphertext.Length && |ks| == 16
    modifies ciphertext
    ensures Wrote(old(ciphertext[..]), ciphertext[..], co, XorPad(message, ks))
  {
    ghost var before, bytes := ciphertext[..], XorPad(message, ks);
    for j := 0 to 16
      invariant Wrote(before, ciphertext[..], co, bytes[..4 * j])
    {
      ghost var mid := ciphertext[..];
      XorWord(message, 4 * j, ciphertext, co + 4 * j, ks[j]);
      WordOfPad(message, ks, j);
      WroteMore(before, mid, ciphertext[..], co, bytes[..4 * j], co + 4 * j, bytes[4 * j..4 * j + 4]);
      assert bytes[..4 * j] + bytes[4 * j..4 * j + 4] == bytes[..4 * j + 4];
    }
    assert bytes[..64] == bytes;
  }

  lemma WordOfPad(message: seq<Byte>, pad: seq<Word>, j: nat)
    requires |message| == 64 && |pad| == 16 && j < 16
    ensures XorPad(message, pad)[4 * j..4 * j + 4]
         == seq(4, k requires 0 <= k < 4 => XorB(message[4 * j + k], LeByte(pad[j], k)))
  {
  }

  /** The ragged tail, byte by byte. */
  method XorTail(message: seq<Byte>, ciphertext: array<Byte>, co: nat, ks: seq<Word>)
    requires |message| <= 64 && co + |message| <= ciphertext.Length && |ks| == 16
    modifies ciphertext
    ensures Wrote(old(ciphertext[..]), ciphertext[..], co, XorPad(message, ks))
  {
    ghost var before, bytes := ciphertext[..], XorPad(message, ks);
    for j := 0 to |message|
      invariant Wrote(before, ciphertext[..], co, bytes[..j])
    {
      ciphertext[co + j] := XorB(message[j], PadByte(ks, j));
    }
  }

  /** What is left to encrypt from generator value h on is the rest of ciphertext c. */
  ghost predicate Left(next: Gen -> Gen, g: Gen, message: seq<Byte>, c: seq<Byte>, h: Gen, i: nat) {
    i <= |message| == |c|
    && AfterBytes(next, g, |message|) == AfterBytes(next, h, |message| - i)
    && c[i..] == Encrypted(next, h, message[i..])
  }

  lemma LeftAll(next: Gen -> Gen, g: Gen, message: seq<Byte>)
    ensures Left(next, g, message, Encrypted(next, g, message), g, 0)
  {
    assert message[0..] == message;
  }

  lemma LeftNone(next: Gen -> Gen, g: Gen, message: seq<Byte>, c: seq<Byte>, h: Gen)
    requires Left(next, g, message, c, h, |message|)
    ensures h == AfterBytes(next, g, |message|)
  {
  }

  lemma OneBlockMore(next: Gen -> Gen, g: Gen, message: seq<Byte>, c: seq<Byte>, h: Gen, i: nat, n: nat)
    requires Left(next, g, message, c, h, i) && i + n <= |message|
    requires n == 64 || (0 < n < 64 && i + n == |message|)
    ensures Left(next, g, message, c, next(h), i + n)
    ensures c[i..i + n] == XorPad(message[i..i + n], next(h).ks)
  {
    var rest := message[i..];
    assert rest[..n] == message[i..i + n] && rest[n..] == message[i + n..];
    assert |rest| <= 64 ==> rest[..n] == rest;
    assert Encrypted(next, h, rest) == XorPad(rest[..n], next(h).ks) + Encrypted(next, next(h), rest[n..]);
    assert c[i..i + n] == c[i..][..n];
    assert c[i + n..] == c[i..][n..];
  }

  lemma TailLength(n: nat, blocks: nat)
    requires 64 * blocks <= n < 64 * blocks + 64
    ensures n % 64 == n - 64 * blocks
  {
  }

  /** At most 64 bytes, by words or by bytes. */
  method XorPart(part: seq<Byte>, ks: seq<Word>, ciphertext: array<Byte>, at: nat)
    requires |ks| == 16 && |part| <= 64 && at + |part| <= ciphertext.Length
    modifies ciphertext
    ensures Wrote(old(ciphertext[..]), ciphertext[..], at, XorPad(part, ks))
  {
    if |part| == 64 {
      XorBlock(part, ciphertext, at, ks);
    } else {
      XorTail(part, ciphertext, at, ks);
    }
  }

  lemma WrotePart(before: seq<Byte>, mid: seq<Byte>, after: seq<Byte>, co: nat, c: seq<Byte>, i: nat, n: nat)
    requires i + n <= |c| && Wrote(before, mid, co, c[..i]) && Wrote(mid, after, co + i, c[i..i + n])
    ensures Wrote(before, after, co, c[..i + n])
  {
    WroteMore(before, mid, after, co, c[..i], co + i, c[i..i + n]);
    assert c[..i] + c[i..i + n] == c[..i + n];
  }

  /** The bytes of the message from i on that one keystream block covers; c is the whole
      ciphertext, of which the first i bytes are already in the buffer. */
  method EncryptPart(part: seq<Byte>, ks: seq<Word>, ciphertext: array<Byte>, co: nat, i: nat,
                     ghost before: seq<Byte>, ghost c: seq<Byte>)
    requires |ks| == 16 && |part| <= 64 && i + |part| <= |c| && co + |c| <= ciphertext.Length
    requires Wrote(before, ciphertext[..], co, c[..i])
    requires c[i..i + |part|] == XorPad(part, ks)
    modifies ciphertext
    ensures Wrote(before, ciphertext[..], co, c[..i + |part|])
  {
    ghost var mid := ciphertext[..];
    XorPart(part, ks, ciphertext, co + i);
    WrotePart(before, mid, ciphertext[..], co, c, i, |part|);
  }

  /** The buffer is none of the state's arrays. */
  ghost predicate Apart(state: State, buffer: array<Byte>) {
    var c: object := buffer;
    var s: object := state;
    var p: object, q: object, k: object := state.P, state.Q, state.keystream;
    c != s && c != p && c != q && c != k
  }

  /** In one buffer: writing from co on never reaches a byte of the message before it is read. */
  predicate Ahead(mo: nat, co: nat, length: nat) {
    co <= mo || mo + length <= co
  }

  /** m is the message as it was: still in its own buffer or, when that is the ciphertext's,
      in what the buffer held before. */
  ghost predicate Kept(message: array<Byte>, mo: nat, ciphertext: array<Byte>, co: nat, before: seq<Byte>, m: seq<Byte>)
    reads message
  {
    mo + |m| <= message.Length
    && if message == ciphertext then Ahead(mo, co, |m|) && mo + |m| <= |before| && before[mo..mo + |m|] == m
       else message[mo..mo + |m|] == m
  }

  /** What is not yet encrypted is still in the message. */
  lemma StillThere(message: array<Byte>, mo: nat, ciphertext: array<Byte>, co: nat, before: seq<Byte>, m: seq<Byte>,
                   c: seq<Byte>, i: nat, n: nat)
    requires Kept(message, mo, ciphertext, co, before, m) && i + n <= |m| == |c|
    requires Wrote(before, ciphertext[..], co, c[..i])
    ensures message[mo + i..mo + i + n] == m[i..i + n]
  {
    forall k | i <= k < i + n ensures message[mo + k] == m[k] {
      if message == ciphertext {
        assert message[mo + k] == ciphertext[..][mo + k] == before[mo + k] == before[mo..mo + |m|][k];
      } else {
        assert message[mo + k] == message[mo..mo + |m|][k];
      }
    }
  }

  /** The first i bytes of ciphertext c are in the buffer, and the state is at h. */
  ghost predicate Reached(state: State, ciphertext: array<Byte>, co: nat, before: seq<Byte>,
                          f: Gen -> Gen, g: Gen, m: seq<Byte>, c: seq<Byte>, h: Gen, i: nat)
    reads state, state.P, state.Q, state.keystream, ciphertext
  {
    state.Valid() && state.Value() == h && Left(f, g, m, c, h, i)
    && co + |c| <= ciphertext.Length && Wrote(before, ciphertext[..], co, c[..i])
  }

  /** One keystream block, and the n bytes of the message it covers. */
  method EncryptOne(state: State, message: array<Byte>, mo: nat, ciphertext: array<Byte>, co: nat, i: nat, n: nat,
                    ghost before: seq<Byte>, ghost f: Gen -> Gen, ghost g: Gen, ghost m: seq<Byte>,
                    ghost c: seq<Byte>, ghost h: Gen)
    requires IsNext(f) && Apart(state, ciphertext) && Apart(state, message) && i + n <= |m|
    requires n == 64 || (0 < n < 64 && i + n == |m|)
    requires Kept(message, mo, ciphertext, co, before, m)
    requires Reached(state, ciphertext, co, before, f, g, m, c, h, i)
    modifies state, state.P, state.Q, state.keystream, ciphertext
    ensures Kept(message, mo, ciphertext, co, before, m)
    ensures Reached(state, ciphertext, co, before, f, g, m, c, f(h), i + n)
  {
    OneBlockMore(f, g, m, c, h, i, n);
    state.NextKeys();
    assert state.Value() == f(h);
    StillThere(message, mo, ciphertext, co, before, m, c, i, n);
    EncryptPart(message[mo + i..mo + i + n], state.keystream[..], ciphertext, co, i, before, c);
  }

  /** The whole blocks of 64 bytes. */
  method EncryptBlocks(state: State, message: array<Byte>, mo: nat, ciphertext: array<Byte>, co: nat, length: nat,
                       ghost before: seq<Byte>, ghost f: Gen -> Gen, ghost g: Gen, ghost m: seq<Byte>,
                       ghost c: seq<Byte>)
    returns (i: nat, ghost h: Gen)
    requires IsNext(f) && Apart(state, ciphertext) && Apart(state, message) && |m| == length
    requires Kept(message, mo, ciphertext, co, before, m)
    requires Reached(state, ciphertext, co, before, f, g, m, c, g, 0)
    modifies state, state.P, state.Q, state.keystream, ciphertext
    ensures i <= length && length % 64 == length - i && Kept(message, mo, ciphertext, co, before, m)
    ensures Reached(state, ciphertext, co, before, f, g, m, c, h, i)
  {
    i, h := 0, g;
    ghost var blocks := 0;
    while i + 64 <= length
      invariant i == 64 * blocks <= length && Kept(message, mo, ciphertext, co, before, m)
      invariant Reached(state, ciphertext, co, before, f, g, m, c, h, i)
    {
      EncryptOne(state, message, mo, ciphertext, co, i, 64, before, f, g, m, c, h);
      h := f(h);
      i := i + 64;
      blocks := blocks + 1;
    }
    TailLength(length, blocks);
  }

  /** HC128_EncryptMessage: 64 bytes at a time, then what is left; in place, downward in one
      buffer, or between places that do not overlap. */
  method EncryptMessage(state: State, message: array<Byte>, mo: nat, ciphertext: array<Byte>, co: nat, length: nat,
                        ghost f: Gen -> Gen)
    requires state.Valid() && IsNext(f) && Apart(state, ciphertext) && Apart(state, message)
    requires mo + length <= message.Length && co + length <= ciphertext.Length
    requires message == ciphertext ==> Ahead(mo, co, length)
    modifies state, state.P, state.Q, state.keystream, ciphertext
    ensures state.Valid() && state.Value() == AfterBytes(f, old(state.Value()), length)
    ensures Wrote(old(ciphertext[..]), ciphertext[..], co,
                  Encrypted(f, old(state.Value()), old(message[mo..mo + length])))
  {
    ghost var g, before, m := state.Value(), ciphertext[..], message[mo..mo + length];
    ghost var c := Encrypted(f, g, m);
    LeftAll(f, g, m);
    var i;
    ghost var h;
    i, h := EncryptBlocks(state, message, mo, ciphertext, co, length, before, f, g, m, c);
    if length % 64 != 0 {
      EncryptOne(state, message, mo, ciphertext, co, i, length - i, before, f, g, m, c, h);
      h := f(h);
    }
    LeftNone(f, g, m, c, h);
    assert c[..length] == c;
  }
}
