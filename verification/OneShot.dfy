/** HC128(): one key, one IV, one message. */
module OneShot {
  import opened Words
  import opened Iteration
  import opened Cipher
  import opened Reverse
  import opened Stream
  import opened Orbits
  import opened HC128
  import opened Encrypt

  lemma LoopReadsTables(f: Gen -> Gen, a: Gen, b: Gen, n: nat)
    requires Respects(f) && Ticks(f) && SameTables(a, b) && n % 1024 == 0
    ensures Iterate<Gen>(f, a, n).counter == a.counter
    ensures SameTables(Iterate(f, a, n), Iterate(f, b, n))
  {
    CounterAfter(f, a, n);
    RunsStayTogether(f, f, a, b, n);
  }

  /** Initialization leaves the counter at zero, and the same tables whatever the buffer held. */
  lemma InitIgnoresBuffer(key: seq<Byte>, iv: seq<Byte>, a: seq<Word>, b: seq<Word>)
    requires |key| == |iv| == 16 && |a| == |b| == 16
    ensures Init(key, iv, a).counter == 0
    ensures SameTables(Init(key, iv, a), Init(key, iv, b))
  {
    StepRespects(Warm);
    LoopReadsTables(Stepper(Warm), Loaded(key, iv, a), Loaded(key, iv, b), 1024);
  }

  /** Encryption reads the state only through its next block. */
  lemma EncryptedReadsBlocks(next: Gen -> Gen, a: Gen, b: Gen, message: seq<Byte>)
    requires next(a) == next(b)
    ensures Encrypted(next, a, message) == Encrypted(next, b, message)
  {
  }

  /** Running the cipher twice with one key and IV gives the message back, whatever the two
      states held before. */
  lemma CipherIsInvolution(key: seq<Byte>, iv: seq<Byte>, a: seq<Word>, b: seq<Word>, message: seq<Byte>)
    requires |key| == |iv| == 16 && |a| == |b| == 16
    ensures Encrypted(NextKeys, Init(key, iv, b), Encrypted(NextKeys, Init(key, iv, a), message)) == message
  {
    InitIgnoresBuffer(key, iv, a, b);
    var x, y := Init(key, iv, a), Init(key, iv, b);
    BlocksIgnoreBuffer(x, y);
    EncryptedReadsBlocks(NextKeys, x, y, Encrypted(NextKeys, x, message));
    EncryptIsInvolution(NextKeys, x, message);
  }

  /** HC128 on a state nobody has initialized: what that state held does not show. */
  method Hc128(key: seq<Byte>, iv: seq<Byte>, message: array<Byte>, mo: nat, ciphertext: array<Byte>, co: nat,
               length: nat)
    requires |key| == |iv| == 16 && mo + length <= message.Length && co + length <= ciphertext.Length
    requires message == ciphertext ==> Ahead(mo, co, length)
    modifies ciphertext
    ensures Wrote(old(ciphertext[..]), ciphertext[..], co,
                  Encrypted(NextKeys, Init(key, iv, Zeros(16)), old(message[mo..mo + length])))
  {
    var state := new State();
    ghost var garbage, m := state.keystream[..], message[mo..mo + length];
    state.Init(key, iv);
    ghost var x, y := Init(key, iv, garbage), Init(key, iv, Zeros(16));
    InitIgnoresBuffer(key, iv, garbage, Zeros(16));
    BlocksIgnoreBuffer(x, y);
    EncryptedReadsBlocks(NextKeys, x, y, m);
    EncryptMessage(state, message, mo, ciphertext, co, length, NextKeys);
  }
}
