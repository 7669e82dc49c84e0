/** The keystream as bytes, and encryption as xor with it. */
module Stream {
  import opened Words
  import opened Cipher

  /** Byte k of a word, in little-endian memory order. */
  function LeByte(w: nat, k: nat): Byte
    decreases k, w
  {
    if k == 0 then w % 0x100 else LeByte(w / 0x100, k - 1)
  }

  /** Byte i of the sixteen buffered keystream words. */
  function PadByte(ks: seq<Word>, i: nat): Byte
    requires |ks| == 16 && i < 64
  {
    LeByte(ks[i / 4], i % 4)
  }

  /** Up to 64 message bytes xored with the buffered keystream. */
  function XorPad(message: seq<Byte>, ks: seq<Word>): (c: seq<Byte>)
    requires |ks| == 16 && |message| <= 64
    ensures |c| == |message|
  {
    seq(|message|, i requires 0 <= i < |message| => XorB(message[i], PadByte(ks, i)))
  }

  /** A message, block by block; a last short block uses up a whole keystream block. */
  function Encrypted(next: Gen -> Gen, g: Gen, message: seq<Byte>): (c: seq<Byte>)
    ensures |c| == |message|
    decreases |message|
  {
    if |message| <= 64 then
      if |message| == 0 then [] else XorPad(message, next(g).ks)
    else
      XorPad(message[..64], next(g).ks) + Encrypted(next, next(g), message[64..])
  }

  /** The generator after a message of n bytes. */
  function AfterBytes(next: Gen -> Gen, g: Gen, n: nat): Gen
    decreases n, g
  {
    if n <= 64 then if n == 0 then g else next(g) else AfterBytes(next, next(g), n - 64)
  }

  /** Byte i of the keystream a generator is about to produce. */
  function StreamByte(next: Gen -> Gen, g: Gen, i: nat): Byte
    decreases i, g
  {
    if i < 64 then PadByte(next(g).ks, i) else StreamByte(next, next(g), i - 64)
  }

  /** n rounded up to whole blocks. */
  function RoundUp(n: nat): nat
  {
    if n <= 64 then if n == 0 then 0 else 64 else 64 + RoundUp(n - 64)
  }

  /** Ciphertext byte i is message byte i xor keystream byte i, at every length. */
  lemma {:induction false} EncryptedByte(next: Gen -> Gen, g: Gen, message: seq<Byte>, i: nat)
    requires i < |message|
    ensures Encrypted(next, g, message)[i] == XorB(message[i], StreamByte(next, g, i))
    decreases i
  {
    if |message| > 64 && i >= 64 {
      EncryptedByte(next, next(g), message[64..], i - 64);
    }
  }

  /** Encrypting twice from the same state restores the message. */
  lemma EncryptIsInvolution(next: Gen -> Gen, g: Gen, message: seq<Byte>)
    ensures Encrypted(next, g, Encrypted(next, g, message)) == message
  {
    var c := Encrypted(next, g, message);
    forall i | 0 <= i < |message|
      ensures Encrypted(next, g, c)[i] == message[i]
    {
      EncryptedByte(next, g, message, i);
      EncryptedByte(next, g, c, i);
      XorBCancels(message[i], StreamByte(next, g, i));
    }
  }

  lemma {:induction false} StreamAfter(next: Gen -> Gen, g: Gen, n: nat, i: nat)
    ensures StreamByte(next, AfterBytes(next, g, n), i) == StreamByte(next, g, RoundUp(n) + i)
    decreases n
  {
    if n > 64 {
      StreamAfter(next, next(g), n - 64, i);
    }
  }

  /** A message sent in two calls: the second call always starts on a fresh block, so
      its bytes use the stream from the next multiple of 64 on. */
  lemma SecondCallByte(next: Gen -> Gen, g: Gen, a: seq<Byte>, b: seq<Byte>, i: nat)
    requires i < |b|
    ensures Encrypted(next, AfterBytes(next, g, |a|), b)[i]
         == XorB(b[i], StreamByte(next, g, RoundUp(|a|) + i))
  {
    EncryptedByte(next, AfterBytes(next, g, |a|), b, i);
    StreamAfter(next, g, |a|, i);
  }

  lemma {:induction false} StatesSplit(next: Gen -> Gen, g: Gen, m: nat, n: nat)
    requires m % 64 == 0
    ensures AfterBytes(next, g, m + n) == AfterBytes(next, AfterBytes(next, g, m), n)
    decreases m
  {
    if m > 0 {
      StatesSplit(next, next(g), m - 64, n);
    }
  }

  lemma FirstBlock(next: Gen -> Gen, g: Gen, m: seq<Byte>)
    requires |m| >= 64
    ensures Encrypted(next, g, m) == XorPad(m[..64], next(g).ks) + Encrypted(next, next(g), m[64..])
  {
    assert |m| == 64 ==> m[..64] == m && m[64..] == [];
  }

  /** Splitting a message at a multiple of 64 bytes changes neither bytes nor state. */
  lemma {:induction false} EncryptSplits(next: Gen -> Gen, g: Gen, a: seq<Byte>, b: seq<Byte>)
    requires |a| % 64 == 0
    ensures Encrypted(next, g, a + b) == Encrypted(next, g, a) + Encrypted(next, AfterBytes(next, g, |a|), b)
    ensures AfterBytes(next, g, |a| + |b|) == AfterBytes(next, AfterBytes(next, g, |a|), |b|)
    decreases |a|
  {
    StatesSplit(next, g, |a|, |b|);
    if |a| == 0 {
      assert a + b == b;
    } else {
      FirstBlock(next, g, a);
      FirstBlock(next, g, a + b);
      assert (a + b)[..64] == a[..64] && (a + b)[64..] == a[64..] + b;
      EncryptSplits(next, next(g), a[64..], b);
    }
  }

  // ----- words and their bytes -----

  lemma LowByte(b: Byte, h: nat)
    ensures (b + 0x100 * h) % 0x100 == b && (b + 0x100 * h) / 0x100 == h
  {
  }

  lemma ByteAndRest(h: nat, l: Byte)
    ensures Pack(h, l, 8) == l + 0x100 * h
  {
    Pow2Of8();
    PackIsSum(h, l, 8);
  }

  lemma XorOfParts(hx: nat, lx: Byte, hy: nat, ly: Byte)
    ensures Xor(lx + 0x100 * hx, ly + 0x100 * hy) == XorB(lx, ly) + 0x100 * Xor(hx, hy)
  {
    XorFields(hx, lx, hy, ly, 8);
    ByteAndRest(hx, lx);
    ByteAndRest(hy, ly);
    XorIsByte(lx, ly);
    ByteAndRest(Xor(hx, hy), Xor(lx, ly));
  }

  lemma XorSplits(hx: nat, lx: Byte, hy: nat, ly: Byte, z: nat)
    requires z == Xor(lx + 0x100 * hx, ly + 0x100 * hy)
    ensures z % 0x100 == XorB(lx, ly) && z / 0x100 == Xor(hx, hy)
  {
    XorOfParts(hx, lx, hy, ly);
    LowByte(XorB(lx, ly), Xor(hx, hy));
  }

  /** Xor works byte by byte. */
  lemma {:induction false} XorBytes(x: nat, y: nat, k: nat)
    ensures LeByte(Xor(x, y), k) == XorB(LeByte(x, k), LeByte(y, k))
    decreases k
  {
    XorSplits(x / 0x100, x % 0x100, y / 0x100, y % 0x100, Xor(x, y));
    if k > 0 {
      XorBytes(x / 0x100, y / 0x100, k - 1);
    }
  }

  lemma XorWBytes(x: Word, y: Word, k: nat)
    ensures LeByte(XorW(x, y), k) == XorB(LeByte(x, k), LeByte(y, k))
  {
    XorIsWord(x, y);
    XorBytes(x, y, k);
  }

  lemma LeByteOfLe32(b: seq<Byte>, at: nat, k: nat)
    requires at + 4 <= |b| && k < 4
    ensures LeByte(Le32(b, at), k) == b[at + k]
  {
    var b1: int, b2: int, b3: int := b[at + 1], b[at + 2], b[at + 3];
    var h1, h2 := b1 + 0x100 * b2 + 0x1_0000 * b3, b2 + 0x100 * b3;
    LowByte(b[at], h1);
    LowByte(b[at + 1], h2);
    LowByte(b[at + 2], b3);
    if k == 1 {
      assert LeByte(Le32(b, at), 1) == LeByte(h1, 0);
    } else if k == 2 {
      assert LeByte(Le32(b, at), 2) == LeByte(h1, 1) == LeByte(h2, 0);
    } else if k == 3 {
      assert LeByte(Le32(b, at), 3) == LeByte(h1, 2) == LeByte(h2, 1) == LeByte(b3, 0);
    }
  }
}
