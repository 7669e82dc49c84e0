# HC-128, the chain fill and the VM screen, modelled in Dafny

The project models the proof-of-work bench of the repository and the daemon code it mirrors:

- the HC-128 stream cipher of `contrib/powbench/hc128.c` and its rejection sampler (Hongjun Wu, "The Stream
  Cipher HC-128", sections 2.2 and 2.3);
- the 256 KB per-nonce chain fill, in its serial and its run-ahead form, both in `contrib/powbench/chain_fill.h`
  and in `src/blockchain_db/lmdb/db_lmdb.cpp`;
- the VM interpreter and the register-free walk that predicts its memory operations
  (`contrib/powbench/screen.c`, `screen_time.c`);
- the shared-ticket thread bench, the GPU sizing, the affinity planner, the per-nonce draws and the
  fee clawback of `contrib/hf14checks` and `contrib/powbench/sizecheck.cpp`.

Code that updates memory is code here too: `HC128.State` is an object with its two tables, keystream buffer and
counter, updated in place by the unrolled block, the expansion loops and the warm-up; encryption, sampling and
the fills work on that object and on byte arrays. Each such method is tied to a value-level function, and the
theorems are about those functions.

How the files fit together:

- `Words`, `Words64`, `Rotations`, `Bits`: machine words as bounded integers, with wrap-around, bitwise operations,
  rotations and bytes written out, and what they mean for quotients and single bits. `Iteration`, `Rho`, `Fission`: orbits of a map, orbits in a finite set, and splitting one loop
  into a planning and an emitting pass.
- `Cipher` is the reference algorithm one step at a time; `CipherLaws` says what a step and the key schedule are on
  plain integers. `Blocks`, `Setup`, `HC128` show that the unrolled
  in-place code computes it. `Reverse` runs it backwards, `Orbits` follows it forever, `AnyBlock` finds a state for every
  keystream block. `Stream`, `Encrypt`,
  `OneShot` are encryption.
- `Sampler`, `MulHigh` are the two index draws and how evenly they draw; `Returning` is when a draw returns and
  in which order words come; `PickLaws` says which block a pick takes, by the words it meets.
- `ChainFill` says what a fill computes, `FillLaws` proves what fills promise, `FillCode` are the loops,
  `NonceSeed` and `NonceFill` are the seed and the fill of one nonce, `Odds` measures the keystream a pick consumes. `ByteLaws` says
  what every byte of a stream, a message and a seed is.
- `Walk`, `Machine`: the screen and the interpreter. `MachineLaws` gives each instruction's effect on integers.
  `SplitMix`: the word source; `MixLaws`: the mixing functions with their constants.
- `TicketBench`, `Sizing`, `Affinity`, `NonceDraws`, `Fees`: one source file each.

Where the code and its own text disagree, the model follows the code:

- `db_lmdb.cpp:2806-2808` says the odds never change how much keystream a pick consumes. The two index draws have
  different bounds and so reject different words. `Odds.OddsKeepCursor` proves the claim holds for every block that
  NextKeys leaves behind exactly when the chain is no longer than the window of 100000 blocks, or the two odds decide
  every selector alike. `Odds.CursorsPart` names the block on which it fails for every longer chain: a selector between
  the two odds, then 100000, then 0. `AnyBlock.EveryBlockArises` shows that NextKeys does produce it, from a state with
  counter 1008, so a fill called with that state draws its first pick from it.
- `hc128.h:58` gives the range of `HC128_U32` as [0, max). For max = 0 the 32-bit decrement wraps and the draw returns
  any word; `Sampler.ResultsBelowMax` proves that every result is below max exactly when max is not 0.
- A bound of 1, which leaves no choice, still rejects half of all words; `Sampler.NeverRejects` says exactly which
  bounds never reject.

A draw that meets no acceptable word never returns. Specifications model that with `Option`: `None` stands for a
draw, and so a fill, that never returns, and equivalences between fills cover it: one fails to return exactly when
the other does. `Returning.DrawReturnsWithinTurn` says when that happens: exactly when one full turn of the keystream,
which is finite and comes back to the cursor it started from, holds no acceptable word. The methods are stated for the
runs that return.

## Main results

- The unrolled, in-place HC-128 code computes the one-step algorithm of the paper, block by block, for
  initialization, keystream and encryption, from arbitrary memory (`HC128.State.NextKeys`, `HC128.State.Init`,
  `OneShot.Hc128`).
- That algorithm is pinned to plain integers: shifts, sums modulo 2^32 and xors, and the one key schedule that key and
  IV have (`CipherLaws.StepLawOnP`, `CipherLaws.StepLawOnQ`, `CipherLaws.TablesAreSchedule`). So are draws, picks,
  messages and reseeds (`PickLaws.DrawLaw`, `PickLaws.PickFromWindow`, `ByteLaws.EmitLaw`, `ByteLaws.ReseedLaw`) and
  every instruction of the machine (`MachineLaws.ArithmeticLaw`, `MachineLaws.BranchLaw`, `MachineLaws.WriteLaw`).
- Every step is a bijection on tables and counter. So runs never merge; different keys, IVs or nonce numbers lead to
  different states after equally many steps; every run is a cycle, the keystream is purely periodic, and every sixteen
  words are a keystream block (`Reverse.InitInjective`, `Reverse.SeedsNeverMeet`, `NonceFill.NoncesNeverMeet`,
  `Orbits.RunsAreCycles`, `Orbits.KeystreamIsPeriodic`, `AnyBlock.EveryBlockArises`).
- The run-ahead fill equals the serial fill for all inputs, bytes, generator and cursor included, and fails to return
  exactly when the serial one does (`FillLaws.RunAheadFillIsSerial`, `FillCode.FillRunAhead`, `NonceFill.FillSalt`).
- The cache reaches the picks of a whole fill only through the bytes that a reseed, or the midpoint, reads
  (`FillLaws.PicksFollowReads`).
- The rejection sampler is exactly uniform and the multiply-high draw is within one word of it; a draw fails to return
  exactly when one turn of the keystream is all rejected (`Sampler.DrawIsUniform`, `MulHigh.HighIsBalanced`,
  `Returning.DrawReturnsWithinTurn`).
- The screen's walk is a rho whose 512 steps see everything, and the interpreter agrees with it up to the first branch
  not taken (`Walk.WalkIsRho`, `Machine.ScreenIsExact`, `Machine.ScreenIsClose`).
- The ticket bench keeps its barrier and hands out every ticket once under every interleaving, terminates and never
  deadlocks (`TicketBench.FinishedRun`, `TicketBench.RunsAreBounded`, `TicketBench.NeverStuck`).
- A claim of the daemon's comments fails, with the exact condition under which it holds (`Odds.OddsKeepCursor`).

## Model

| member | source | states |
|---|---|---|
| `Blocks.BlockIsSteps` | contrib/powbench/hc128.c:81-130 | From a counter that is a multiple of 16, up to sixteen steps of the one-step algorithm are that many cells of one table in order: the block never changes table half-way |
| `Blocks.FeedIsG` | contrib/powbench/hc128.c:56-75 | The order in which the step macros rotate, xor and add gives g1 and g2 |
| `HC128.Macro` | contrib/powbench/hc128.c:56-75 | step_P, step_Q, update_P and update_Q, given the five cell numbers of step s, turn the tables and buffer before reference step s into those after it |
| `HC128.Sixteen` | contrib/powbench/hc128.c:87-108 | The sixteen unrolled calls with their literal cell numbers are sixteen consecutive reference cells, including the wrap at both ends of the table |
| `HC128.State.Block` | contrib/powbench/hc128.c:81-130 | The block on P or Q that the counter selects, with the counter advanced by 16 modulo 1024 |
| `HC128.State.NextKeys` | contrib/powbench/hc128.c:81-130 | From every valid state the new tables, all 16 keystream words and the counter are those of 16 reference keystream steps, and the state stays valid |
| `HC128.State.UpdateSixteenSteps` | contrib/powbench/hc128.c:162-211 | Sixteen reference feedback steps |
| `HC128.State.WarmUp` | contrib/powbench/hc128.c:250-252 | The 64 calls are 1024 single feedback steps |
| `HC128.State.Init` | contrib/powbench/hc128.c:214-253 | From arbitrary memory: the expansion of key and IV, 1024 feedback steps, and a valid state |
| `HC128.State.constructor` | contrib/powbench/hc128.h:45-51 | A state as declared: arrays of 512, 512 and 16 words, contents unknown |
| `HC128.State.Copy` | contrib/hf14checks/t_v14_longhash.cpp:128 | Struct assignment: a fresh state with the same value |
| `Setup.ExpandIsExpansion` | contrib/powbench/hc128.c:231-245 | Every word of the expansion from 16 on satisfies the W recurrence |
| `Setup.RecurrenceAt` | contrib/powbench/hc128.c:135-137 | The recurrence spelled out at one index |
| `Setup.LoadSeed` | contrib/powbench/hc128.c:220-229 | The first sixteen cells hold key, key, IV, IV as little-endian words |
| `Setup.Generate` | contrib/powbench/hc128.c:231-245 | Each of the four recurrence loops, with its own offset, continues one and the same expansion |
| `Setup.LoadTables` | contrib/powbench/hc128.c:220-245 | After all eight in-place loops P[i] = W[i + 256] and Q[i] = W[i + 768] |
| `Rotations.RotRIsShiftOr` | contrib/powbench/hc128.c:36 | The model's rotation, bit by bit, is the macro's right shift or left shift |
| `Rotations.RotLIsShiftOr` | contrib/powbench/hc128.c:37 | The left rotation is a right rotation by the rest of the width, and the macro's two shifts |
| `Rotations.Ror64IsShiftOr` | contrib/powbench/screen.c:170-175 | The same for 64 bits, with the source's own case for distance 0 |
| `Bits.XorBit` | contrib/powbench/hc128.c:61-63 | A bit of a xor is set exactly when one of the two has it |
| `Bits.OrBit` | contrib/powbench/hc128.c:36-37 | A bit of an or is set exactly when either has it |
| `Bits.AndBit` | contrib/powbench/hc128.h:74 | A bit of an and is set exactly when both have it |
| `Bits.ShrIsDivision` | contrib/powbench/hc128.c:135-136 | A right shift is a quotient by a power of two |
| `CipherLaws.StepLawOnP` | contrib/powbench/hc128.c:56-64 | Below counter 512, keystream or feedback: P[j] + P[j-10] turned right by 8 + (P[j-511] by 23 xor P[j-3] by 10), and the sum of the two Q words that bytes 0 and 2 of P[j-12] pick; the cell, the buffer slot and nothing else change |
| `CipherLaws.StepLawOnQ` | contrib/powbench/hc128.c:67-75 | The same from counter 512 on, with left turns of Q and words of P |
| `CipherLaws.TablesAreSchedule` | contrib/powbench/hc128.c:220-248 | The tables before the warm-up are words 256 to 1279 of the only sequence that starts with key, key, IV, IV, lowest byte first, and satisfies the recurrence with f1 and f2 as shifts |
| `Reverse.StepUndone` | contrib/powbench/hc128.c:56-75 | A step of either kind followed by its inverse restores tables and counter |
| `Reverse.StepRedone` | contrib/powbench/hc128.c:140-159 | The inverse followed by the step restores them too: a step is a bijection on tables and counter |
| `Reverse.StepNeverMerges` | contrib/powbench/hc128.c:56-159 | Different tables or counters stay different after a step |
| `Reverse.RunsNeverMerge` | contrib/powbench/hc128.c:81-211 | Two runs of any length that end alike began alike |
| `Reverse.RunsHaveNoTail` | contrib/powbench/hc128.c:81-211 | A run that ever repeats a state repeats its first one |
| `Reverse.ExpandNeverMerges` | contrib/powbench/hc128.c:231-245 | Sixteen consecutive words of the expansion determine the sixteen it started from |
| `Reverse.InitInjective` | contrib/powbench/hc128.c:214-253 | Equal tables after initialization mean equal key and equal IV |
| `Reverse.SeedsNeverMeet` | contrib/powbench/hc128.c:214-253 | Differently keyed generators never reach the same state after equally many steps |
| `Orbits.RunsAreCycles` | contrib/powbench/hc128.c:81-211 | From every state, some positive number of steps leads back to the same tables and counter |
| `Orbits.BlocksIgnoreBuffer` | contrib/powbench/hc128.c:81-130 | A block and the state behind it depend on tables and counter, not on the words the buffer held |
| `AnyBlock.EveryBlockArises` | contrib/powbench/hc128.c:81-130 | Any sixteen words are what NextKeys leaves in the buffer, from some aligned state |
| `Orbits.KeystreamIsPeriodic` | contrib/powbench/hc128.c:259-283 | The keystream of every aligned state is purely periodic, from its first byte on |
| `Stream.EncryptedByte` | contrib/powbench/hc128.c:259-283 | Ciphertext byte i is message byte i xor keystream byte i, at every length |
| `Stream.EncryptIsInvolution` | contrib/powbench/hc128.c:259-283 | Encrypting twice from one state restores the message |
| `Stream.EncryptSplits` | contrib/powbench/hc128.c:259-283 | Splitting a message at a multiple of 64 bytes changes neither bytes nor final state |
| `Stream.SecondCallByte` | contrib/powbench/hc128.c:275-282 | After a call of any length the next call starts at the next multiple of 64 stream bytes |
| `ByteLaws.CipherByteLaw` | contrib/powbench/hc128.c:259-283 | Ciphertext byte i is message byte i xor byte i mod 4 of word i mod 64 / 4 of block i / 64 + 1 |
| `Encrypt.XorBlock` | contrib/powbench/hc128.c:270-271 | The word loop writes the 64 xored bytes and nothing else |
| `Encrypt.XorTail` | contrib/powbench/hc128.c:278-281 | The byte loop writes the ragged tail and nothing else |
| `Encrypt.EncryptMessage` | contrib/powbench/hc128.c:259-283 | The buffer gets the ciphertext at its offset and is otherwise unchanged, in place, downward in one buffer or between buffers; the state advances one block per started 64 bytes |
| `OneShot.InitIgnoresBuffer` | contrib/powbench/hc128.c:214-253 | Initialization returns the counter to 0 and the same tables whatever the buffer held |
| `OneShot.CipherIsInvolution` | contrib/powbench/hc128.c:289-298 | Two runs with one key and IV cancel, whatever the two states held before |
| `OneShot.Hc128` | contrib/powbench/hc128.c:289-298 | The one-call cipher on an uninitialized state: a function of key, IV and message only |
| `Sampler.TakeWord` | contrib/powbench/chain_fill.h:57-61 | The word under the cursor and the cursor behind it, with a new block when 16 words are used up |
| `Sampler.U32` | contrib/powbench/hc128.h:61-77 | Returns the first accepted masked word from the cursor on, having consumed exactly up to it |
| `Sampler.MaskedIsRemainder` | contrib/powbench/hc128.h:63-65 | Masking is the remainder by a power of two |
| `Sampler.RangeFits` | contrib/powbench/hc128.h:63-65 | That power of two is above max - 1 and at most twice max |
| `Sampler.DrawIsUniform` | contrib/powbench/hc128.h:61-77 | Every result comes from exactly the same number of 32-bit words |
| `Sampler.HalfAreAccepted` | contrib/powbench/hc128.h:66-75 | At least half of all words are accepted, for every bound |
| `Sampler.NeverRejects` | contrib/powbench/hc128.h:61-77 | No word is rejected exactly when max is a power of two from 2 up, or 0 |
| `Sampler.ResultsBelowMax` | contrib/powbench/hc128.h:58-77 | Every result is below max exactly when max is not 0 |
| `PickLaws.DrawLaw` | contrib/powbench/hc128.h:61-77 | With 2^b the least power of two not below max, and at least 2: the result is the low b bits of the first word for which they are below max, and the cursor goes just behind that word |
| `Returning.NoneMeansRejected` | contrib/powbench/hc128.h:67-75 | The loop fails to end exactly when every word from the cursor on is rejected |
| `Returning.DrawReturnsWithinTurn` | contrib/powbench/hc128.h:67-75 | From every block NextKeys leaves behind, the loop fails to end exactly when one full turn of the keystream is rejected; otherwise it ends within that turn |
| `Returning.WordFromCursor` | contrib/powbench/chain_fill.h:57-61 | Word i from cursor k is word (k + i) mod 16 of the (k + i) / 16-th block on |
| `MulHigh.HighIsBelow` | contrib/powbench/chain_fill.h:140-141 | The multiply-high draw is below the height |
| `MulHigh.HighIsBalanced` | contrib/powbench/chain_fill.h:140-141 | The words that lead to each index are floor(2^32 / height) many, or one more |
| `Fission.FissionLaw` | contrib/powbench/chain_fill.h:177-231 | Planning every round of a loop before emitting any ends in the same two states, and fails exactly when the fused loop fails |
| `Fission.ActionSplitsLoop` | src/blockchain_db/lmdb/db_lmdb.cpp:2946-2956 | One loop that acts when a count is reached is two loops with the action between them |
| `ChainFill.RunAheadBlockIsSerial` | contrib/powbench/chain_fill.h:190-224 | All indices and keystream first, then all gathers: the same sixteen messages, generator and cursor |
| `FillLaws.RunAheadFillIsSerial` | contrib/powbench/chain_fill.h:177-231 | For every generator, cache, height, odds, interval, draw mode, field mode and midpoint setting, the run-ahead fill returns exactly when the serial one does, with the same 262144 bytes, generator and cursor |
| `FillLaws.SerialFillIsOneLoop` | contrib/powbench/chain_fill.h:145-161 | Without a midpoint reseed the fill is one loop of 256 blocks |
| `FillLaws.PickIsBelowHeight` | contrib/powbench/chain_fill.h:140-144 | Every pick, in every draw mode, is an index into the cache |
| `FillLaws.PlanIsBelowHeight` | contrib/powbench/chain_fill.h:194-202 | So is every index of every plan |
| `PickLaws.DirectPick` | contrib/powbench/chain_fill.h:91-94 | v5: the block the low bits of the first word below the height name |
| `PickLaws.ScaledPick` | contrib/powbench/chain_fill.h:140-141 | The multiply-high pick is word times height over 2^32, one word each |
| `PickLaws.PickAnywhere` | contrib/powbench/chain_fill.h:142-143 | A selector whose low byte is below the odds picks anywhere in the chain |
| `PickLaws.PickFromWindow` | contrib/powbench/chain_fill.h:144 | Any other selector picks height minus window plus the low bits of a word |
| `PickLaws.PickRecently` | src/blockchain_db/lmdb/db_lmdb.cpp:2810-2812 | On a chain longer than 100000 that is one of the last 100000 blocks, by the low 17 bits |
| `PickLaws.PlanLaw` | contrib/powbench/chain_fill.h:192-210 | A plan is four picks in order and then the next keystream block, the cursor going on |
| `ByteLaws.MessageLaw` | contrib/powbench/chain_fill.h:52-56 | Where each of the 64 bytes comes from: the first block's hash, three fields or rotating hash words, the count |
| `ByteLaws.EmitLaw` | contrib/powbench/chain_fill.h:212-223 | A message appends its 64 bytes, each xored with its keystream byte |
| `ByteLaws.BlockLaw` | contrib/powbench/chain_fill.h:146-155 | A block draws one keystream block with the cursor kept and then emits sixteen messages in order |
| `ByteLaws.ReseedLaw` | contrib/powbench/chain_fill.h:156-160 | When the interval is reached: IV by the first draw from the last 512 bytes, key by the second from the 512 before, cursor kept; otherwise nothing changes |
| `ByteLaws.MidpointLaw` | contrib/powbench/chain_fill.h:104-107 | Key and IV are the first and second sixteen bytes of the last message with its start replaced by sixteen bytes of the first half, encrypted |
| `ByteLaws.FillLaw` | src/blockchain_db/lmdb/db_lmdb.cpp:2839-2858 | 128 rounds, the midpoint where there is one, 128 rounds |
| `FillLaws.SeedsAreInBounds` | contrib/powbench/chain_fill.h:156-160 | A reseed's IV lies in the last 512 bytes produced and its key in the 512 before them, so the two never overlap |
| `FillLaws.FillIsComplete` | contrib/powbench/chain_fill.h:80-163 | A fill that returns has produced exactly 262144 bytes |
| `FillLaws.BlocksIgnoreCache` | contrib/powbench/chain_fill.h:190-210 | The indices and keystream of a block are the same for any two caches of one size |
| `FillLaws.PicksFollowSeeds` | contrib/powbench/chain_fill.h:190-229 | For any number of rounds over arbitrary caches of one size: the same indices and keystream, block by block, for as long as the reseeds read the same bytes |
| `FillLaws.PicksFollowReads` | src/blockchain_db/lmdb/db_lmdb.cpp:2800-2859 | The same for a whole fill, midpoint included: when every byte a generator is seeded from agrees, all indices and keystream agree, and both fills return or neither |
| `FillCode.PickOne` | contrib/powbench/chain_fill.h:140-144 | The code of a pick, on the generator object |
| `FillCode.PickMessage` | contrib/powbench/chain_fill.h:148-151 | The serial order, pick, copy, pick, copy, gives the indices, the message, the generator and the cursor of four picks drawn ahead |
| `FillCode.BuildMessage` | contrib/powbench/chain_fill.h:212-215 | The five copies assemble the 64-byte message from four indices |
| `FillCode.SerialTurn` | contrib/powbench/chain_fill.h:147-155 | One message of the serial loop, picks and copies alternating, then encryption at the end of the page: the planned message |
| `FillCode.PlanSixteen` | contrib/powbench/chain_fill.h:192-210 | The first pass fills the plan table without reading the cache |
| `FillCode.GatherSixteen` | contrib/powbench/chain_fill.h:211-224 | The second pass writes sixteen messages from the plans alone |
| `FillCode.ReseedCode` | contrib/powbench/chain_fill.h:156-160 | The reseed, when due, from bytes of the output; nothing otherwise |
| `FillCode.MidpointCode` | contrib/powbench/chain_fill.h:104-107 | The midpoint reseed leaves the page as it was: its scratch block lies beyond it, where the next message goes |
| `FillCode.FillTwoLoops` | contrib/powbench/chain_fill.h:80-124 | chain_fill_v5: every byte of the buffer, the generator and the cursor are those of the serial fill |
| `FillCode.FillOneLoop` | contrib/powbench/chain_fill.h:130-163 | chain_fill_v6: likewise |
| `FillCode.FillRunAhead` | src/blockchain_db/lmdb/db_lmdb.cpp:2889-2958 | The run-ahead loop, with and without a midpoint: the same bytes, generator and cursor as the serial fill |
| `NonceSeed.DeriveSeed` | contrib/powbench/chain_fill.h:271-276 | The seeding loop produces the four churned words of the nonce number as little-endian bytes |
| `NonceSeed.SeedLaw` | contrib/powbench/chain_fill.h:272-276 | Each seed byte, from the nonce number times the golden constant plus 0xFEED, churned once per word |
| `NonceSeed.SeedsDiffer` | contrib/powbench/chain_fill.h:271-276 | Different nonce numbers give different seeds |
| `NonceFill.GenerationLaw` | contrib/powbench/chain_fill.h:280-286 | Which generations draw directly, scale, read the window, reseed after which blocks, read hash words and pass a midpoint |
| `NonceFill.NoncesNeverMeet` | contrib/powbench/chain_fill.h:269-287 | The generators of two different nonces are in different states after equally many steps |
| `NonceFill.FillSalt` | contrib/powbench/chain_fill.h:269-287 | The salt is a function of generation, cache and nonce number: not of the run-ahead switch, of uninitialized generator memory or of the buffer's old contents |
| `Odds.OddsKeepCursor` | src/blockchain_db/lmdb/db_lmdb.cpp:2806-2813 | Two odds consume the same keystream from every block NextKeys leaves behind exactly when the window covers the chain or both decide every selector alike |
| `Odds.CursorsPart` | src/blockchain_db/lmdb/db_lmdb.cpp:2806-2813 | A block that NextKeys does leave behind and on which two odds leave different cursors, for every chain longer than the window |
| `Walk.ScreenProgram` | contrib/powbench/screen.c:126-158 | Counts memory operations, branches and distinct slots of the 512-step walk that takes every branch |
| `Walk.EstimateMemops` | contrib/powbench/screen_time.c:129-147 | The second implementation agrees with the first on every program |
| `Walk.NextPcBySlot` | contrib/powbench/screen.c:136-152 | The walk's next slot depends on the slot only, not on the unmasked counter |
| `Walk.SuccLaw` | contrib/powbench/screen.c:138-152 | A branch with byte b at slot s goes to s + b, or s + b + 256 from 128 on, modulo 512; anything else to s + 1 |
| `Walk.WalkIsRho` | contrib/powbench/screen.c:126-158 | The first `distinct` slots are pairwise different, every later slot repeats one of them, and no longer walk reaches more |
| `Walk.NoMemopsMeansNone` | contrib/powbench/screen.c:142-143 | The count is 0 exactly when no walk, however long, meets a memory operation |
| `Rho.RhoShape` | contrib/powbench/screen.c:126-158 | Every orbit in a finite set is a stretch of new values followed by repeats only |
| `Machine.Execute` | contrib/powbench/screen.c:203-252 | The switch updates registers, pad, chain and counter in place as the step function says |
| `Machine.TracedExecute` | contrib/powbench/screen.c:191-254 | 512 steps from counter 0, with counters of memory operations, branches seen and branches taken |
| `MachineLaws.ArithmeticLaw` | contrib/powbench/screen.c:211-214 | Scaled sum, difference and product modulo 2^64 and xor, into dst and nowhere else |
| `MachineLaws.RotateAndMixLaw` | contrib/powbench/screen.c:215-247 | Right turn by the low six bits of src; mixing of dst xor src with imm as key |
| `MachineLaws.BranchLaw` | contrib/powbench/screen.c:217-224 | A branch jumps exactly when the register is odd or shares a set bit with imm, by its signed shift byte |
| `MachineLaws.ReadLaw` | contrib/powbench/screen.c:226-233 | The cell at (src + imm + chain) modulo 2^23, and the chain becomes it |
| `MachineLaws.WriteLaw` | contrib/powbench/screen.c:235-245 | The cell at (dst + imm + chain) modulo 2^23 is xored with src, and the chain grows by it |
| `Machine.SameSlots` | contrib/powbench/screen.c:191-254 | Interpreter and walk visit the same slots up to the first branch not taken |
| `Machine.TakenMeansFollowed` | contrib/powbench/screen.c:217-224 | A pass followed the walk exactly when its taken and seen counters are equal |
| `Machine.ScreenIsExact` | contrib/powbench/screen.c:126-158 | With every branch taken, memory operations and branches are what the screen reports, for any registers and pad |
| `Machine.ScreenIsClose` | contrib/powbench/screen.c:126-158 | Otherwise both counts are off by at most the steps left after the first branch not taken |
| `Machine.PassesRepeat` | contrib/powbench/screen.c:440-448 | Any two passes of one nonce that take all their branches count the same |
| `Words64.FinalizeUndone` | contrib/powbench/screen.c:95-101 | The two multiplications and three xor-shifts have an inverse |
| `Words64.Mix64IsBijection` | contrib/powbench/screen.c:179-189 | ref_mix64 is a bijection on 64-bit words for every key material |
| `MixLaws.FinalizeLaw` | contrib/powbench/screen.c:98-100 | The xor-shifts by 30, 27 and 31 and the two products, with their constants |
| `MixLaws.MixLaw` | contrib/powbench/screen.c:179-189 | The key material enters by its product with the golden constant |
| `MixLaws.AdvanceLaw` | contrib/powbench/screen.c:97 | The counter advances by the golden constant modulo 2^64 |
| `SplitMix.Source.Next` | contrib/powbench/screen.c:95-101 | One call: the counter advances by the odd constant and the finalized counter is returned |
| `SplitMix.NoWordTwice` | contrib/powbench/screen.c:95-101 | No word comes twice within 2^64 consecutive calls |
| `SplitMix.WordsRepeatExactly` | contrib/powbench/screen.c:95-101 | Two calls return the same word exactly when a multiple of 2^64 calls lies between them |
| `TicketBench.InvNext` | contrib/hf14checks/t_bench_v5v6.cpp:206-251 | Every step of main or of any worker keeps the barrier, counting and ticket invariants |
| `TicketBench.BarrierHolds` | contrib/hf14checks/t_bench_v5v6.cpp:224-244 | Under every interleaving no ticket is taken before all workers have warmed up or failed |
| `TicketBench.TicketsAreDistinct` | contrib/hf14checks/t_bench_v5v6.cpp:229-233 | Tickets lie in 1..total and none is handed out twice |
| `TicketBench.FinishedRun` | contrib/hf14checks/t_bench_v5v6.cpp:229-250 | With a live worker all tickets were claimed and hashed and the counter ends at minus the live workers; without one none was; the result is -1 exactly when some worker failed |
| `TicketBench.RunsAreBounded` | contrib/hf14checks/t_bench_v5v6.cpp:206-251 | No schedule is longer than a bound known at the start |
| `TicketBench.NeverStuck` | contrib/hf14checks/t_bench_v5v6.cpp:206-251 | Every unfinished state has a next step: no deadlock |
| `Sizing.CountBuffers` | contrib/powbench/sizecheck.cpp:27-29 | The fewest buffers whose share of the budget is within the limit, at most four |
| `Sizing.Size` | contrib/powbench/sizecheck.cpp:24-42 | For every budget, limit and pad size: the most pads per buffer within limit and budget, the largest work group of the halving, a positive number of whole groups all backed by pads, at most eight steps and no longer ones; skipped exactly when a pad does not fit a buffer |
| `Sizing.Launches` | contrib/powbench/sizecheck.cpp:52-57 | The launches partition [0, nonces) into at most eight pieces of whole work groups, all but the last of full length |
| `Affinity.Collect` | contrib/hf14checks/t_v14_bench.cpp:98-99 | The inner loop finds exactly the cores of the group, in enumeration order |
| `Affinity.PlanAffinity` | contrib/hf14checks/t_v14_bench.cpp:95-103 | min(threads, cores) entries at strictly increasing positions, from the highest-numbered L3 group that holds all threads, or else from the start of the enumeration |
| `NonceDraws.DrawsInRange` | contrib/hf14checks/t_v14_longhash.cpp:126-137 | xx and yy in [4, 8], iters in [0, 63], 12 to 119 steps, and exactly which heights and draws reach the ends |
| `NonceDraws.DrawnLaw` | contrib/hf14checks/t_v14_longhash.cpp:129-135 | xx, yy and the divisor from the low bits of the first accepted words, in that order, and iters the remainder of height + 1 |
| `NonceDraws.ReplayDraws` | contrib/hf14checks/t_v14_longhash.cpp:126-137 | The three draws, from a copy of the generator |
| `Fees.LogPadded` | contrib/hf14checks/t_fee_weight.cpp:71-73 | The loop finds the least power of two, and the shift stays below the sign bit |
| `Fees.Clawback` | contrib/hf14checks/t_fee_weight.cpp:66-77 | Zero up to two outputs; otherwise four fifths of a difference that never underflows |
| `Fees.ClawbackCovers` | contrib/hf14checks/t_fee_weight.cpp:66-77 | More outputs never cost less, and proof plus clawback pay 256 bytes per padded output and at most a fifth of the proof more |
| `Fees.ProofBytes` | contrib/hf14checks/t_fee_weight.cpp:38-44 | The size estimate adds the clawback's proof size plus 3, and 96 more for a plain Bulletproof |

## Left out

- Runs that never return: the methods are stated for runs whose draws return. When a draw returns is proved; whether some key and IV lead to a draw that does not is left open.
- Odds.OddsKeepCursor: speaks of every aligned generator state a fill can be called with; whether some key and IV lead to the state of the counterexample is left open.
- Encrypt.EncryptMessage: excludes a ciphertext that starts inside the message, beyond its first byte, in one buffer; there the source encrypts bytes it has already overwritten. No caller does this.
- HC128.State.Block: the four unrolled lists of the source name the same cells in the same order, so the list is written once with the table half and the mode as parameters.
- FillCode.FillTwoLoops: the message buffer starts as zeros instead of uninitialized; the first message overwrites it before it is read.
- FillCode.ReseedCode: a reseed interval of 0, which the source divides by, is excluded by the type of the rules.
- Sizing.Size: the budget is any natural number; the 70 percent of device memory it comes from is floating point.
- Fees.LogPadded: limited to 2^30 outputs, beyond which the source shifts into the sign bit of a 32-bit int.
- Fees.ProofBytes: only the proof part of the size estimate; the sums for inputs, outputs and signatures are left out.
- Machine.Execute: the pad is 2^20 cells of 64 bits, since every access is 8-byte aligned; register numbers are below 8.
- TicketBench.BarrierHolds: events read the latest value of an atomic. A stale read of `go` or `ready` makes its reader spin once more, which is no event here; the visibility of non-atomic data under the weaker memory orders is not modelled.
- Affinity.PlanAffinity: starts from the lists of cores and L3 groups; reading them from Windows is left out.
- Big-endian machines, prefetching and alignment: words are little-endian and prefetches have no effect.
- fill_random, chain_cache_init and cn_vm_generate_program: they only choose inputs over which the theorems quantify.
- The daemon's database, hashing and serialization around the fill, and all timing and statistics.
