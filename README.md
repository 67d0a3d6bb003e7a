# Keccak sponge, SHA-1, SHA-256 and SHA-512 as the Rust sources compute them

This project models the hashing core of a small Rust crate:

- the Keccak state codec, the five step mappings, the round-constant register,
  the round function, `keccak_p`, `keccak_f`, the padding rule `pad`, the
  sponge and the `Sha3` object of `src/sha/sha3.rs`;
- the `Sha256`, `Sha512` and `Sha1` objects of `src/sha/sha256.rs`,
  `src/sha/sha512.rs` and `src/sha/sha1.rs`. Each has `new`, `result` and
  `compute`, plus its `preprocess`, `prepare_schedule` and logical functions.

The model follows the code as written, including where it departs from
FIPS 202:

- `keccak_p` runs its index range `12 + 2l - n_r .. 12 + 2l - 1`, which is
  `n_r - 1` rounds;
- `rnd` applies theta alone, because the other steps are commented out;
- theta, rho, pi and chi address the x and y axes with the offset "add 2, mod 5";
- rho advances its lane walk after every bit rather than after every lane;
- iota writes round-constant bits only at positions `2^j - 1` for `j < l`;
- `rc` starts its register at `10000000` and runs `t mod 255 - 1` steps,
  using Rust's truncating remainder;
- the squeezing loop empties `s` into `z` before it applies `f` again.

SHA-512's `preprocess` reserves a 16-byte length field but writes the 8-byte
length at `l - 8`. The model writes it there too, and the bytes before it stay zero.

Layout, one module per file:

| file | module | contents |
|---|---|---|
| `arith.dfy` | `Arith` | small facts about multiplication, division and remainder |
| `keccak_state.dfy` | `KeccakState` | the 5 x 5 x 64 bit cube, its cross-sections, `bstr_to_state` and `state_to_bstr` |
| `keccak_steps.dfy` | `KeccakSteps` | theta, rho, pi, chi, iota, rc and rnd |
| `keccak_sponge.dfy` | `KeccakSponge` | keccak_p, keccak_f, pad, sponge and the `Sha3` class |
| `sha_bytes.dfy` | `ShaBytes` | modular word arithmetic, big-endian codecs, the message padding shared by the SHA functions |
| `sha256.dfy`, `sha512.dfy`, `sha1.dfy` | `Sha256`, `Sha512`, `Sha1` | the schedules, the rounds, the compression and the hash classes |

Step by step code is written as methods with loops, and each method is proved
equal to a function on values:

- `bstr_to_state`, the step mappings, `rc`, `keccak_p`, the sponge loops,
  `preprocess` and `prepare_schedule` (over an `array`);
- `compute`'s round loop and block loop.

Pure code becomes functions. The lemmas prove properties of those functions:
round trips, inverses of the round functions, uniqueness of the schedule
recurrence, and the layout of the padded message.

The hash classes keep the source's fields. Rust's fixed-size arrays are values
and its `Vec` of blocks is never mutated, so the classes hold them as
sequences. `wrapping_add` is addition on `bv32` or `bv64`. `rem_euclid` is
Dafny's `%`, and the truncating `%` of `rc` is `RustRem`.

## Model

| member | source | states |
|---|---|---|
| KeccakState.Zero | src/sha/sha3.rs:6-44 | the starting state is well formed (5 x 5 lanes of 64 bits) and every lane is all false |
| KeccakState.CrossSectionsAgree | src/sha/sha3.rs:218-240 | row, column, lane, plane, slice and sheet all read the same bit (x, y, z) of the cube and have five entries (Row, Column, GetLane, Plane, Slice and Sheet) |
| KeccakState.BitsOfAt | src/sha/sha3.rs:105-113 | the flat string of a state holds bit (x, y, z) at position 64(5y + x) + z |
| KeccakState.SplitIndex | src/sha/sha3.rs:98-99 | every position below 1600 is 64(5y + x) + z for some x, y < 5 and z < 64 |
| KeccakState.BitsOfStateOf | src/sha/sha3.rs:94-113 | for a 1600-bit string, `state_to_bstr(bstr_to_state(b)) == b` |
| KeccakState.StateOfBitsOf | src/sha/sha3.rs:94-113 | for a well-formed state, `bstr_to_state(state_to_bstr(s)) == s` |
| KeccakState.BstrToState | src/sha/sha3.rs:94-103 | the triple loop yields exactly the state whose bit (x, y, z) is bit w(5y + x) + z of the input, for w = len / 25; requires w <= 64, that is fewer than 1625 input bits, because the source writes past the 64-bit lanes of its zero state and panics from 1625 bits on |
| KeccakState.StateToBstr | src/sha/sha3.rs:105-113 | the plane loop yields a 1600-bit string that holds bit (x, y, z) at 64(5y + x) + z |
| KeccakSteps.Shifted | src/sha/sha3.rs:243-245 | the source's offset order 3 4 0 1 2: loop index i addresses coordinate (i + 2) mod 5 |
| KeccakSteps.Unshifted | src/sha/sha3.rs:243-245 | the inverse of the offset: coordinate X is addressed by loop index (X + 3) mod 5 |
| KeccakSteps.Theta | src/sha/sha3.rs:247-268 | theta keeps the 5 x 5 x 64 shape |
| KeccakSteps.ThetaParities | src/sha/sha3.rs:253-257 | the first loop fills c[x][z] with the parity of column (x, z) for every x and z |
| KeccakSteps.ThetaDiffs | src/sha/sha3.rs:259-261 | the second loop fills d[x][z] with c[x - 1][z] XOR c[x + 1][(z - 1) mod w] |
| KeccakSteps.ThetaApply | src/sha/sha3.rs:263-265 | the third loop XORs lane (X, Y) of a copy with d[(X + 3) mod 5], for every lane |
| KeccakSteps.ComputeTheta | src/sha/sha3.rs:247-268 | theta sets bit (X, Y, z) to the input bit XOR D[(X + 3) mod 5][z], and equals the function Theta |
| KeccakSteps.ThetaUnique | src/sha/sha3.rs:247-268 | any well-formed state with theta's bits everywhere is Theta of the input |
| KeccakSteps.RhoSource | src/sha/sha3.rs:281 | the read index (z + 10w - (t + 1)(t + 2)/2) mod w stays inside the lane |
| KeccakSteps.WalkStep | src/sha/sha3.rs:283 | the walk step (x, y) to (y, 2x + 3y mod 5) stays in range and reaches (0, 0) only from (0, 0) |
| KeccakSteps.ComputeRho | src/sha/sha3.rs:270-288 | output lane (2, 2) is input lane (0, 0), and every other set bit is a set bit of the same input lane at a rotation (t + 1)(t + 2)/2 for some t < 24; outside lane (2, 2), bit z stays false unless z is congruent modulo 8 to the lane's position in the walk |
| KeccakSteps.WalkIndex | src/sha/sha3.rs:276-284 | the position of a lane in the walk from (1, 0) lies in 0 .. 23 for every lane other than (0, 0), and is -1 exactly for lane (0, 0), which the walk never visits |
| KeccakSteps.WalkStepIndex | src/sha/sha3.rs:283 | one walk step moves a lane other than (0, 0) to the next position round the 24-cycle, and so keeps it congruent modulo 8 to the bit counter z |
| KeccakSteps.RhoPass | src/sha/sha3.rs:279-284 | one pass of the z loop for a given t writes only bits taken from their own lane under rotation t or earlier, keeps every bit z outside its class modulo 8 false, and returns the walk at a position congruent to 0 modulo 8 |
| KeccakSteps.PiLaneMapBijective | src/sha/sha3.rs:295 | the lane map of pi and its inverse undo each other, so the map is a bijection of the 25 lanes |
| KeccakSteps.PiThenInverse | src/sha/sha3.rs:290-299 | the positional inverse undoes pi |
| KeccakSteps.InverseThenPi | src/sha/sha3.rs:290-299 | pi undoes the positional inverse |
| KeccakSteps.PiIndex | src/sha/sha3.rs:295 | the source's index (x + 3y + 2) mod 5, in loop coordinates, is the x of the source lane in plain coordinates |
| KeccakSteps.ComputePi | src/sha/sha3.rs:290-299 | every output lane (X, Y) is a verbatim copy of input lane ((X + 3Y + 4) mod 5, X), and the result equals Pi |
| KeccakSteps.ChiRowLocal | src/sha/sha3.rs:301-311 | each output row of chi depends only on the same input row, so chi reads only the original input |
| KeccakSteps.ComputeChi | src/sha/sha3.rs:301-311 | the loop yields Chi: bit (X, Y, z) is the input bit XOR (NOT bit (X + 1) AND bit (X + 2)) |
| KeccakSteps.ChiRowLoop | src/sha/sha3.rs:305-308 | the inner z loop for one lane yields that lane of Chi |
| KeccakSteps.RustRem | src/sha/sha3.rs:333 | Rust's `%` lies strictly between -b and b, agrees with the Euclidean remainder for t >= 0, and is at most 0 for t < 0 |
| KeccakSteps.LfsrStep | src/sha/sha3.rs:340-345 | one register step keeps 8 bits and shifts bits 0 .. 2 up by one |
| KeccakSteps.LfsrStepInvertible | src/sha/sha3.rs:339-346 | the register step and its reverse undo each other, so no two registers step to the same one |
| KeccakSteps.ComputeRc | src/sha/sha3.rs:332-349 | the loop returns bit 0 of the register after t mod 255 - 1 steps, or true when the truncated remainder is 0 |
| KeccakSteps.ShiftRegister | src/sha/sha3.rs:340-345 | insert `true`, XOR bit 8 into bits 0, 4, 5 and 6, then truncate: this is exactly one register step |
| KeccakSteps.RcPeriodic | src/sha/sha3.rs:332-349 | rc(t + 255) == rc(t) for t >= 0 |
| KeccakSteps.RcTrueCases | src/sha/sha3.rs:333-335 | rc is true at every multiple of 255 and at every t <= 0 |
| KeccakSteps.MaskIndexOfPow2 | src/sha/sha3.rs:321-323 | 2^j - 1 is a valid position for j < l, and MaskIndex maps that position, and no other, back to j |
| KeccakSteps.IotaMaskAt | src/sha/sha3.rs:319-323 | the mask holds rc(j + 7 i_r) at position 2^j - 1 for every j < l |
| KeccakSteps.IotaMaskElsewhere | src/sha/sha3.rs:319-323 | the mask is false at every position that is not 2^j - 1 for some j < l |
| KeccakSteps.IotaInvolutive | src/sha/sha3.rs:313-330 | applying iota twice with the same round index restores the state |
| KeccakSteps.ComputeIota | src/sha/sha3.rs:313-330 | iota changes only lane (2, 2), which it XORs with the mask, and equals Iota |
| KeccakSteps.RndIgnoresIndex | src/sha/sha3.rs:190-203 | the round Rnd, which is theta alone because the other steps are commented out, does not depend on i_r |
| KeccakSteps.ApplyRound | src/sha/sha3.rs:190-203 | one round is theta alone: bit (X, Y, z) becomes the input bit XOR D[(X + 3) mod 5][z] |
| KeccakSponge.RoundCount | src/sha/sha3.rs:120 | the range 12 + 2l - n_r .. 12 + 2l - 1 holds n_r - 1 rounds for n_r >= 1, and none otherwise |
| KeccakSponge.KeccakPNoRounds | src/sha/sha3.rs:115-127 | with n_r <= 1, keccak_p returns its input unchanged |
| KeccakSponge.KeccakPStep | src/sha/sha3.rs:115-127 | keccak_p with n_r + 1 is one more theta on the decoded output of keccak_p with n_r |
| KeccakSponge.RunKeccakP | src/sha/sha3.rs:115-127 | the round loop returns KeccakP, a 1600-bit string |
| KeccakSponge.KeccakF | src/sha/sha3.rs:129-134 | keccak_f is 23 applications of theta between decoding and encoding |
| KeccakSponge.Pad | src/sha/sha3.rs:205-214 | pad(x, m) is true, then j = (-m - 2) mod x false bits, then true |
| KeccakSponge.PadCompletesBlock | src/sha/sha3.rs:205-214 | m + len(pad) is a multiple of x, and the smallest one that is at least m + 2 |
| KeccakSponge.Chunks | src/sha/sha3.rs:148-151 | `chunks_exact` gives len / rate blocks of rate bits |
| KeccakSponge.ChunksAt | src/sha/sha3.rs:148-151 | block i holds bits i * rate .. (i + 1) * rate of the input |
| KeccakSponge.XorBits | src/sha/sha3.rs:157 | zip-and-XOR gives bit i = a[i] XOR b[i] |
| KeccakSponge.AbsorbSnoc | src/sha/sha3.rs:152-158 | absorbing nothing leaves 1600 zero bits, and one more block is one more f over the state XOR the zero-extended block |
| KeccakSponge.Truncate | src/sha/sha3.rs:163 | `truncate(rate)` keeps the first min(len, rate) bits |
| KeccakSponge.SqueezeOutAt | src/sha/sha3.rs:160-172 | the output begins with the first squeezed block and continues with the later block repeated |
| KeccakSponge.SpongeShortOutput | src/sha/sha3.rs:160-169 | for d <= rate the sponge returns the first d bits of the absorbed state |
| KeccakSponge.RunSponge | src/sha/sha3.rs:136-173 | the sponge loops return exactly d bits, namely the Sponge function |
| KeccakSponge.AbsorbBlocks | src/sha/sha3.rs:152-158 | the absorbing loop runs once per block and yields Absorb |
| KeccakSponge.Squeeze | src/sha/sha3.rs:160-172 | the squeezing loop yields the first block, followed by repeats of f on the emptied state |
| KeccakSponge.Sha3.constructor | src/sha/sha3.rs:88-92 | `new` keeps the bits and sets the state to their decoding; requires fewer than 1625 bits, as BstrToState does |
| KeccakSponge.Sha3.Keccak | src/sha/sha3.rs:175-187 | `keccak` replaces the bits with the sponge over bits ++ [0, 1] (rate 1600 - capacity, d = capacity / 2) and leaves the state untouched |
| KeccakSponge.Sha3DigestIsPrefix | src/sha/sha3.rs:175-187 | the padded input fills whole blocks, and the digest is the first capacity / 2 bits of the absorbed state |
| ShaBytes.Word32OfBytes | src/sha/sha256.rs:84-85 | reading back the big-endian bytes of a 32-bit word gives the word |
| ShaBytes.BytesOfWord32 | src/sha/sha256.rs:23-27 | writing out the word read from four bytes gives the bytes |
| ShaBytes.Word64OfBytes | src/sha/sha512.rs:88-89 | reading back the big-endian bytes of a 64-bit word gives the word |
| ShaBytes.BytesOfWord64 | src/sha/sha512.rs:88-89 | writing out the word read from eight bytes gives the bytes |
| ShaBytes.BytesOfWords32At | src/sha/sha256.rs:23-27 | bytes 4i .. 4i + 3 of the flattened hash are hash word i, big-endian |
| ShaBytes.BytesOfWords64At | src/sha/sha512.rs:28-32 | bytes 8i .. 8i + 7 of the flattened hash are hash word i, big-endian |
| ShaBytes.Words32OfBytes | src/sha/sha256.rs:84-85 | reading flattened 32-bit words back as words gives the words |
| ShaBytes.Words64OfBytes | src/sha/sha512.rs:88-89 | reading flattened 64-bit words back as words gives the words |
| ShaBytes.Blocks | src/sha/sha256.rs:86-87 | the second `array_chunks` gives len / 16 blocks, and block i is words 16i .. 16i + 15 |
| ShaBytes.BlocksOf32At | src/sha/sha256.rs:84-87 | word k of block i is the big-endian word of bytes 64i + 4k .. 64i + 4k + 3 |
| ShaBytes.BlocksOf64At | src/sha/sha512.rs:88-91 | word k of block i is the big-endian word of bytes 128i + 8k .. 128i + 8k + 7 |
| ShaBytes.PaddedLengthSmallest | src/sha/sha256.rs:75-76 | the buffer length is a multiple of the block size and the smallest one that is at least n + 1 + the length field |
| ShaBytes.BufferLength | src/sha/sha512.rs:78-79 | the allocation len + bs * (n mod bs >= bs - field) is that smallest length |
| ShaBytes.Padded | src/sha/sha256.rs:74-82 | the padded buffer holds the message, then 0x80, then zeros, then 8n as a big-endian u64 in the last 8 bytes |
| ShaBytes.PaddedUnique | src/sha/sha256.rs:74-82 | any buffer of that length with that layout is the padded buffer |
| ShaBytes.PadMessage | src/sha/sha1.rs:61-69 | the buffer-filling code of `preprocess` yields exactly the padded buffer |
| Sha256.ChTakesY | src/sha/sha256.rs:105-107 | where x has a one, Ch (the source's ch) has y's bit |
| Sha256.ChTakesZ | src/sha/sha256.rs:105-107 | where x has a zero, Ch has z's bit |
| Sha256.MajIsMajority | src/sha/sha256.rs:109-111 | where x and y agree, Maj (the source's maj) has their bit; where they differ, it has z's |
| Sha256.MajSymmetric | src/sha/sha256.rs:109-111 | Maj is invariant under swapping its arguments |
| Sha256.MessageBlocksAt | src/sha/sha256.rs:84-87 | word k of block i is the big-endian word of padded bytes 64i + 4k .. 64i + 4k + 3 |
| Sha256.Preprocess | src/sha/sha256.rs:74-88 | `preprocess` returns total / 64 blocks of the padded message |
| Sha256.SchedulePrefix | src/sha/sha256.rs:93-98 | computing more schedule words leaves the earlier ones unchanged |
| Sha256.ScheduleAt | src/sha/sha256.rs:93-98 | W[t] = σ1(W[t - 2]) + W[t - 7] + σ0(W[t - 15]) + W[t - 16] mod 2^32 for 16 <= t < 64, with σ0 = SmallSigma0 and σ1 = SmallSigma1 as defined at src/sha/sha256.rs:123-129 |
| Sha256.ScheduleExpands | src/sha/sha256.rs:90-101 | the schedule starts with the block and obeys the recurrence at every t |
| Sha256.ScheduleUnique | src/sha/sha256.rs:90-101 | any 64 words that start with the block and obey the recurrence are the schedule |
| Sha256.PrepareSchedule | src/sha/sha256.rs:90-101 | the array loop yields the schedule of the block, whatever the old schedule held |
| Sha256.WordsLoad | src/sha/sha256.rs:36 | loading a..h from the hash and listing them again gives the hash |
| Sha256.Round | src/sha/sha256.rs:47-53 | a round sets h to g, g to f, f to e, d to c, c to b and b to a |
| Sha256.UnRoundRound | src/sha/sha256.rs:39-54 | the reverse round undoes a round whose T1 = h + Σ1(e) + Ch(e, f, g) + K_t + W_t and T2 = Σ0(a) + Maj(a, b, c), with Σ0 = BigSigma0 and Σ1 = BigSigma1 as defined at src/sha/sha256.rs:113-121 |
| Sha256.RoundUnRound | src/sha/sha256.rs:39-54 | a round undoes the reverse round, so each round is a permutation of the working variables |
| Sha256.UnRoundsRounds | src/sha/sha256.rs:38-55 | for a fixed schedule, the first n rounds can be undone |
| Sha256.RoundsUnRounds | src/sha/sha256.rs:38-55 | every outcome of the first n rounds is reached from some start |
| Sha256.AddHashLossless | src/sha/sha256.rs:57-67 | the new hash is word-wise old hash plus working variables mod 2^32; subtracting the old hash gives the variables back |
| Sha256.ProcessBlock | src/sha/sha256.rs:34-67 | one iteration of the block loop stores the block's schedule and the compressed hash |
| Sha256.CompressAll | src/sha/sha256.rs:33-68 | the block loop compresses the blocks in order, and the schedule left behind is the last block's |
| Sha256.Sha256.constructor | src/sha/sha256.rs:9-18 | `new` loads the FIPS 180-4 section 5.3.3 initial hash value, the message blocks and a zero schedule |
| Sha256.Sha256.Compute | src/sha/sha256.rs:32-71 | `compute` folds the compression over the blocks from the current hash, leaves the blocks unchanged and keeps the last block's schedule |
| Sha256.Sha256.Result | src/sha/sha256.rs:20-30 | `result` reruns `compute` from the current hash and returns the 32 big-endian bytes of the new hash; `schedule` is left as the schedule of the last block, or unchanged when there are no blocks |
| Sha256.Hash | src/sha/sha256.rs:9-30 | `new` then `result` returns the digest of the message, with bytes 4i .. 4i + 3 being hash word i |
| Sha512.ChTakesY | src/sha/sha512.rs:109-111 | where x has a one, Ch (the source's ch) has y's bit |
| Sha512.ChTakesZ | src/sha/sha512.rs:109-111 | where x has a zero, Ch has z's bit |
| Sha512.MajIsMajority | src/sha/sha512.rs:113-115 | where x and y agree, Maj (the source's maj) has their bit; where they differ, it has z's |
| Sha512.MajSymmetric | src/sha/sha512.rs:113-115 | Maj is invariant under swapping its arguments |
| Sha512.MessageBlocksAt | src/sha/sha512.rs:88-91 | word k of block i is the big-endian word of padded bytes 128i + 8k .. 128i + 8k + 7 |
| Sha512.Preprocess | src/sha/sha512.rs:77-92 | `preprocess` returns total / 128 blocks of the padded message, which holds the message, 0x80, zeros and the 8-byte length in the last 8 bytes |
| Sha512.SchedulePrefix | src/sha/sha512.rs:97-102 | computing more schedule words leaves the earlier ones unchanged |
| Sha512.ScheduleAt | src/sha/sha512.rs:97-102 | W[t] = σ1(W[t - 2]) + W[t - 7] + σ0(W[t - 15]) + W[t - 16] mod 2^64 for 16 <= t < 80, with σ0 = SmallSigma0 and σ1 = SmallSigma1 as defined at src/sha/sha512.rs:127-133 |
| Sha512.ScheduleExpands | src/sha/sha512.rs:94-105 | the schedule starts with the block and obeys the recurrence at every t |
| Sha512.ScheduleUnique | src/sha/sha512.rs:94-105 | any 80 words that start with the block and obey the recurrence are the schedule |
| Sha512.PrepareSchedule | src/sha/sha512.rs:94-105 | the array loop yields the schedule of the block, whatever the old schedule held |
| Sha512.WordsLoad | src/sha/sha512.rs:41 | loading a..h from the hash and listing them again gives the hash |
| Sha512.Round | src/sha/sha512.rs:52-58 | a round sets h to g, g to f, f to e, d to c, c to b and b to a |
| Sha512.UnRoundRound | src/sha/sha512.rs:44-59 | the reverse round undoes a round whose T1 = h + Σ1(e) + Ch(e, f, g) + K_t + W_t and T2 = Σ0(a) + Maj(a, b, c), with Σ0 = BigSigma0 and Σ1 = BigSigma1 as defined at src/sha/sha512.rs:117-125 |
| Sha512.RoundUnRound | src/sha/sha512.rs:44-59 | a round undoes the reverse round, so each round is a permutation of the working variables |
| Sha512.UnRoundsRounds | src/sha/sha512.rs:43-60 | for a fixed schedule, the first n rounds can be undone |
| Sha512.RoundsUnRounds | src/sha/sha512.rs:43-60 | every outcome of the first n rounds is reached from some start |
| Sha512.AddHashLossless | src/sha/sha512.rs:62-72 | the new hash is word-wise old hash plus working variables mod 2^64; subtracting the old hash gives the variables back |
| Sha512.ProcessBlock | src/sha/sha512.rs:39-72 | one iteration of the block loop stores the block's schedule and the compressed hash |
| Sha512.CompressAll | src/sha/sha512.rs:38-73 | the block loop compresses the blocks in order, and the schedule left behind is the last block's |
| Sha512.Sha512.constructor | src/sha/sha512.rs:8-23 | `new` loads the FIPS 180-4 section 5.3.5 initial hash value, the message blocks and a zero schedule |
| Sha512.Sha512.Compute | src/sha/sha512.rs:37-74 | `compute` folds the compression over the blocks from the current hash, leaves the blocks unchanged and keeps the last block's schedule |
| Sha512.Sha512.Result | src/sha/sha512.rs:25-35 | `result` reruns `compute` from the current hash and returns the 64 big-endian bytes of the new hash; `schedule` is left as the schedule of the last block, or unchanged when there are no blocks |
| Sha512.Hash | src/sha/sha512.rs:8-35 | `new` then `result` returns the digest of the message, with bytes 8i .. 8i + 7 being hash word i |
| Sha1.RotR30L30 | src/sha/sha1.rs:44 | rotating left by 30 can be undone by rotating right by 30 |
| Sha1.RotL30R30 | src/sha/sha1.rs:44 | rotating right by 30 can be undone by rotating left by 30 |
| Sha1.FSelects | src/sha/sha1.rs:88-96 | F (the source's f(t)) is SHA-256's ch for t < 20 and its maj for 40 <= t < 60; otherwise it is parity, for any order of the arguments |
| Sha1.KtIsRoot | src/sha/sha1.rs:98-106 | the four values of Kt (the source's k(t)) are the integer parts of 2^30 times the square roots of 2, 3, 5 and 10 |
| Sha1.MessageBlocksAt | src/sha/sha1.rs:71-74 | word k of block i is the big-endian word of padded bytes 64i + 4k .. 64i + 4k + 3 |
| Sha1.Preprocess | src/sha/sha1.rs:61-75 | `preprocess` returns total / 64 blocks of the padded message |
| Sha1.SchedulePrefix | src/sha/sha1.rs:80-83 | computing more schedule words leaves the earlier ones unchanged |
| Sha1.ScheduleAt | src/sha/sha1.rs:80-83 | W[t] = ROTL1(W[t - 3] ^ W[t - 8] ^ W[t - 14] ^ W[t - 16]) for 16 <= t < 80 |
| Sha1.ScheduleExpands | src/sha/sha1.rs:77-86 | the schedule starts with the block and obeys the recurrence at every t |
| Sha1.ScheduleUnique | src/sha/sha1.rs:77-86 | any 80 words that start with the block and obey the recurrence are the schedule |
| Sha1.PrepareSchedule | src/sha/sha1.rs:77-86 | the array loop yields the schedule of the block, whatever the old schedule held |
| Sha1.WordsLoad | src/sha/sha1.rs:32 | loading a..e from the hash and listing them again gives the hash |
| Sha1.Round | src/sha/sha1.rs:42-46 | a round sets e to d, d to c, c to ROTL30(b) and b to a |
| Sha1.UnRoundRound | src/sha/sha1.rs:35-46 | the reverse round undoes a round, including temp = ROTL5(a) + f_t(b, c, d) + e + K_t + W_t |
| Sha1.RoundUnRound | src/sha/sha1.rs:35-46 | a round undoes the reverse round, so each round is a permutation of the working variables |
| Sha1.UnRoundsRounds | src/sha/sha1.rs:34-47 | for a fixed schedule, the first n rounds can be undone |
| Sha1.RoundsUnRounds | src/sha/sha1.rs:34-47 | every outcome of the first n rounds is reached from some start |
| Sha1.AddHashLossless | src/sha/sha1.rs:49-56 | the new hash is word-wise old hash plus working variables mod 2^32; subtracting the old hash gives the variables back |
| Sha1.ProcessBlock | src/sha/sha1.rs:30-56 | one iteration of the block loop stores the block's schedule and the compressed hash |
| Sha1.CompressAll | src/sha/sha1.rs:29-57 | the block loop compresses the blocks in order, and the schedule left behind is the last block's |
| Sha1.Sha1.constructor | src/sha/sha1.rs:8-14 | `new` loads the FIPS 180-4 section 5.3.1 initial hash value, the message blocks and a zero schedule |
| Sha1.Sha1.Compute | src/sha/sha1.rs:28-58 | `compute` folds the compression over the blocks from the current hash, leaves the blocks unchanged and keeps the last block's schedule |
| Sha1.Sha1.Result | src/sha/sha1.rs:16-26 | `result` reruns `compute` from the current hash and returns the 20 big-endian bytes of the new hash; `schedule` is left as the schedule of the last block, or unchanged when there are no blocks |
| Sha1.Hash | src/sha/sha1.rs:8-26 | `new` then `result` returns the digest of the message, with bytes 4i .. 4i + 3 being hash word i |

## Left out

- `print_digest` and `main` (console I/O and hex formatting), `impl Display for Sha3` and the debug `println!` calls in `keccak_p` and `rnd`: output only.
- The float `log2().round()` in `keccak_p`, `keccak_f` and `iota`: replaced by the constant l = 6. The zero state of the source has 64-bit lanes, and rho copies whole lanes into it, so w = 64.
- KeccakState.BstrToState and KeccakSponge.Sha3.constructor: require |bstr| / 25 <= 64. The source panics for inputs of 1625 bits or more, because the write at src/sha/sha3.rs:98-99 indexes past the 64-bit lanes of its zero state.
- `keccak_p` and `keccak_f` on strings other than 1600 bits: this would need the float logarithm of other widths and the overflow behaviour of `isize`.
- KeccakSponge.Sha3.Keccak: requires capacity / 2 <= 1600 - capacity, which every capacity up to 1067 meets. With a longer output the source squeezes again and applies `keccak_f` to an empty string. There w = 0, log2(0) is minus infinity and converts to `isize::MIN`, and `12 + 2 * l` overflows, which panics in a debug build. With wrapping arithmetic, `keccak_f` of the empty string is 1600 zero bits, so every output block after the first is zeros.
- KeccakSponge.Sponge and KeccakSponge.RunSponge: require f of the empty string to be a non-empty string when d > rate. The generic `sponge` at src/sha/sha3.rs:160-172 never terminates when d > rate and f of the empty string is empty, because the output then stops growing.
- KeccakSteps.ComputeRho: states that every set bit outside lane (2, 2) is a set bit of the same input lane under one of the 24 rotations, and that bit z of such a lane is false unless z is congruent modulo 8 to the lane's walk position. It does not name the one t that writes each bit.
- The `Box<dyn Fn>` returned by SHA-1's `f(t)` is modelled as the function F(t, x, y, z), which requires t < 80. The source's `unreachable!()` arm is excluded by that requirement.
- Messages of 2^61 bytes or more: `len as u64 * 8` overflows, so every SHA model requires a shorter message.
- Known-answer digests are not part of this model. The `K` tables are literal data, and no test vector is evaluated.
- The commented-out steps in `rnd` and the commented-out code in `src/sha/mod.rs`.
- Sha256.Sha256.Compute, Sha512.Sha512.Compute and Sha1.Sha1.Compute: the block loop runs on local copies and writes `hash` and `schedule` once. The field values between two blocks are not modelled.
- The sigma functions Σ0, Σ1, σ0 and σ1 of SHA-256 and SHA-512 are defined exactly as in the source. No separate property is stated for them; they enter through the schedule recurrence and the rounds.
