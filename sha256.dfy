/**
 * SHA-256 as `src/sha/sha256.rs` computes it: the message is padded into
 * 512-bit blocks of sixteen 32-bit words, and an object holding the hash
 * words, the block list and the message schedule runs the 64-round
 * compression over every block.
 */
module Sha256 {
  import opened ShaBytes

  /** The round constants `K`. */
  const K: seq<bv32> := [
    0x428a2f98, 0x71374491, 0xb5c0fbcf, 0xe9b5dba5, 0x3956c25b, 0x59f111f1, 0x923f82a4, 0xab1c5ed5,
    0xd807aa98, 0x12835b01, 0x243185be, 0x550c7dc3, 0x72be5d74, 0x80deb1fe, 0x9bdc06a7, 0xc19bf174,
    0xe49b69c1, 0xefbe4786, 0x0fc19dc6, 0x240ca1cc, 0x2de92c6f, 0x4a7484aa, 0x5cb0a9dc, 0x76f988da,
    0x983e5152, 0xa831c66d, 0xb00327c8, 0xbf597fc7, 0xc6e00bf3, 0xd5a79147, 0x06ca6351, 0x14292967,
    0x27b70a85, 0x2e1b2138, 0x4d2c6dfc, 0x53380d13, 0x650a7354, 0x766a0abb, 0x81c2c92e, 0x92722c85,
    0xa2bfe8a1, 0xa81a664b, 0xc24b8b70, 0xc76c51a3, 0xd192e819, 0xd6990624, 0xf40e3585, 0x106aa070,
    0x19a4c116, 0x1e376c08, 0x2748774c, 0x34b0bcb5, 0x391c0cb3, 0x4ed8aa4a, 0x5b9cca4f, 0x682e6ff3,
    0x748f82ee, 0x78a5636f, 0x84c87814, 0x8cc70208, 0x90befffa, 0xa4506ceb, 0xbef9a3f7, 0xc67178f2
  ]

  /** A message block: sixteen words, as `[u32; 16]`. */
  type Block = b: seq<bv32> | |b| == 16 witness [0, 0, 0, 0, 0, 0, 0, 0, 0, 0, 0, 0, 0, 0, 0, 0]

  /** The initial hash value `new` loads. */
  const IV: seq<bv32> := [
    0x6A09E667, 0xBB67AE85, 0x3C6EF372, 0xA54FF53A, 0x510E527F, 0x9B05688C, 0x1F83D9AB, 0x5BE0CD19
  ]

  // The logical functions

  function Ch(x: bv32, y: bv32, z: bv32): bv32 {
    (x & y) ^ (!x & z)
  }

  function Maj(x: bv32, y: bv32, z: bv32): bv32 {
    (x & y) ^ (y & z) ^ (x & z)
  }

  /** Where x has a one, Ch has y's bit. */
  lemma ChTakesY(x: bv32, y: bv32, z: bv32)
    ensures Ch(x, y, z) & x == y & x
  {
  }

  /** Where x has a zero, Ch has z's bit. */
  lemma ChTakesZ(x: bv32, y: bv32, z: bv32)
    ensures Ch(x, y, z) & !x == z & !x
  {
  }

  /** Where x and y agree Maj has their bit; where they differ it has z's bit. */
  lemma MajIsMajority(x: bv32, y: bv32, z: bv32)
    ensures Maj(x, y, z) & !(x ^ y) == x & !(x ^ y) && Maj(x, y, z) & (x ^ y) == z & (x ^ y)
  {
  }

  /** Maj does not depend on the order of its arguments. */
  lemma MajSymmetric(x: bv32, y: bv32, z: bv32)
    ensures Maj(x, y, z) == Maj(y, x, z) == Maj(x, z, y)
  {
  }

  function BigSigma0(x: bv32): bv32 {
    x.RotateRight(2) ^ x.RotateRight(13) ^ x.RotateRight(22)
  }

  function BigSigma1(x: bv32): bv32 {
    x.RotateRight(6) ^ x.RotateRight(11) ^ x.RotateRight(25)
  }

  function SmallSigma0(x: bv32): bv32 {
    x.RotateRight(7) ^ x.RotateRight(18) ^ (x >> 3)
  }

  function SmallSigma1(x: bv32): bv32 {
    x.RotateRight(17) ^ x.RotateRight(19) ^ (x >> 10)
  }

  // preprocess

  /** The blocks of a message: its padded bytes read as big-endian words, sixteen to a block. */
  function MessageBlocks(msg: seq<bv8>): (blocks: seq<Block>)
    requires |msg| < MaxLength
    ensures |blocks| == PaddedLength(|msg|, 64, 8) / 64
  {
    BlocksOf32(Padded(msg, 64, 8))
  }

  /** Word k of block i holds bytes 64i + 4k .. 64i + 4k + 3 of the padded message, big-endian. */
  lemma MessageBlocksAt(msg: seq<bv8>, i: nat, k: nat)
    requires |msg| < MaxLength && i < |MessageBlocks(msg)| && k < 16
    ensures 64 * i + 4 * k + 4 <= |Padded(msg, 64, 8)|
    ensures MessageBlocks(msg)[i][k] == Word32Of(Padded(msg, 64, 8)[64 * i + 4 * k..64 * i + 4 * k + 4])
  {
    BlocksOf32At(Padded(msg, 64, 8), i, k);
  }

  /** `preprocess`: fills the padded buffer, then groups it into words and blocks. */
  method Preprocess(msg: seq<bv8>) returns (blocks: seq<Block>)
    requires |msg| < MaxLength
    ensures blocks == MessageBlocks(msg)
  {
    var res := PadMessage(msg, 64, 8);
    blocks := BlocksOf32(res);
  }

  // prepare_schedule

  /** Schedule word t from words t - 2, t - 7, t - 15 and t - 16, added in the source's order. */
  function NextWord(w2: bv32, w7: bv32, w15: bv32, w16: bv32): bv32 {
    Add32(Add32(Add32(SmallSigma1(w2), w7), SmallSigma0(w15)), w16)
  }

  /** The first n schedule words of a block. */
  function ScheduleUpTo(block: seq<bv32>, n: nat): (w: seq<bv32>)
    requires |block| == 16 && 16 <= n <= 64
    ensures |w| == n && w[..16] == block
  {
    if n == 16 then block
    else
      var p := ScheduleUpTo(block, n - 1);
      p + [NextWord(p[n - 3], p[n - 8], p[n - 16], p[n - 17])]
  }

  /** Computing more words leaves the earlier ones as they were. */
  lemma {:induction false} SchedulePrefix(block: seq<bv32>, m: nat, n: nat, i: nat)
    requires |block| == 16 && 16 <= m <= n <= 64 && i < m
    ensures ScheduleUpTo(block, n)[i] == ScheduleUpTo(block, m)[i]
    decreases n
  {
    if m < n {
      SchedulePrefix(block, m, n - 1, i);
    }
  }

  /** The message schedule of a block. */
  function Schedule(block: seq<bv32>): (w: seq<bv32>)
    requires |block| == 16
    ensures |w| == 64 && w[..16] == block
  {
    ScheduleUpTo(block, 64)
  }

  /**
   * 64 words expand a block when the first 16 are the block and every later
   * word obeys the recurrence
   * W[t] = σ1(W[t - 2]) + W[t - 7] + σ0(W[t - 15]) + W[t - 16] mod 2^32.
   */
  ghost predicate Expands(block: seq<bv32>, w: seq<bv32>) {
    && |block| == 16 && |w| == 64 && w[..16] == block
    && forall t {:trigger NextWord(w[t - 2], w[t - 7], w[t - 15], w[t - 16])} :: 16 <= t < 64 ==>
         w[t] == NextWord(w[t - 2], w[t - 7], w[t - 15], w[t - 16])
  }

  /** Word t of the schedule obeys the recurrence. */
  lemma ScheduleAt(block: seq<bv32>, t: nat)
    requires |block| == 16 && 16 <= t < 64
    ensures Schedule(block)[t] == NextWord(Schedule(block)[t - 2], Schedule(block)[t - 7], Schedule(block)[t - 15], Schedule(block)[t - 16])
  {
    SchedulePrefix(block, t + 1, 64, t);
    SchedulePrefix(block, t + 1, 64, t - 2);
    SchedulePrefix(block, t + 1, 64, t - 7);
    SchedulePrefix(block, t + 1, 64, t - 15);
    SchedulePrefix(block, t + 1, 64, t - 16);
  }

  /** The schedule obeys the recurrence. */
  lemma ScheduleExpands(block: seq<bv32>)
    requires |block| == 16
    ensures Expands(block, Schedule(block))
  {
    var w := Schedule(block);
    forall t {:trigger NextWord(w[t - 2], w[t - 7], w[t - 15], w[t - 16])} | 16 <= t < 64
      ensures w[t] == NextWord(w[t - 2], w[t - 7], w[t - 15], w[t - 16])
    {
      ScheduleAt(block, t);
    }
  }

  /** The recurrence has one solution: whatever expands the block is its schedule. */
  lemma ScheduleUnique(block: seq<bv32>, w: seq<bv32>)
    requires Expands(block, w)
    ensures w == Schedule(block)
  {
    for n := 16 to 64
      invariant w[..n] == ScheduleUpTo(block, n)
    {
      assert w[n] == NextWord(w[n - 2], w[n - 7], w[n - 15], w[n - 16]);
      assert w[..n + 1] == w[..n] + [w[n]];
    }
    assert w[..64] == w;
  }

  /**
   * `prepare_schedule`: copies the block into the first 16 entries of the
   * schedule it is given and fills entries 16 .. 64 by the recurrence; what
   * the old schedule held does not matter.
   */
  method PrepareSchedule(schedule: seq<bv32>, block: seq<bv32>) returns (w: seq<bv32>)
    requires |schedule| == 64 && |block| == 16
    ensures w == Schedule(block)
  {
    var a := new bv32[64](i requires 0 <= i < 64 => schedule[i]);
    ghost var target := Schedule(block);
    forall i | 0 <= i < 16 {
      a[i] := block[i];
    }
    for t := 16 to 64
      invariant forall j :: 0 <= j < t ==> a[j] == target[j]
    {
      ScheduleAt(block, t);
      a[t] := NextWord(a[t - 2], a[t - 7], a[t - 15], a[t - 16]);
    }
    w := a[..];
  }

  // compute

  /** The working variables a .. h of `compute`. */
  datatype Working = Working(a: bv32, b: bv32, c: bv32, d: bv32, e: bv32, f: bv32, g: bv32, h: bv32)

  /** The working variables as loaded from eight hash words. */
  function Load(hash: seq<bv32>): (v: Working)
    requires |hash| == 8
  {
    Working(hash[0], hash[1], hash[2], hash[3], hash[4], hash[5], hash[6], hash[7])
  }

  /** The working variables in order a .. h. */
  function Words(v: Working): (ws: seq<bv32>) {
    [v.a, v.b, v.c, v.d, v.e, v.f, v.g, v.h]
  }

  /** Loading eight words and listing them again gives the words back. */
  lemma WordsLoad(hash: seq<bv32>)
    requires |hash| == 8
    ensures Words(Load(hash)) == hash
  {
  }

  /** The first temporary of a round: h + Σ1(e) + Ch(e, f, g) + K[t] + W[t]. */
  function T1(v: Working, k: bv32, w: bv32): bv32 {
    Add32(Add32(Add32(Add32(v.h, BigSigma1(v.e)), Ch(v.e, v.f, v.g)), k), w)
  }

  /** The second temporary of a round: Σ0(a) + Maj(a, b, c). */
  function T2(v: Working): bv32 {
    Add32(BigSigma0(v.a), Maj(v.a, v.b, v.c))
  }

  /**
   * One round: every working variable moves one place down, except that e
   * receives d + T1 and a receives T1 + T2.
   */
  function Round(v: Working, k: bv32, w: bv32): (r: Working)
    ensures r.b == v.a && r.c == v.b && r.d == v.c
    ensures r.f == v.e && r.g == v.f && r.h == v.g
  {
    var t1, t2 := T1(v, k, w), T2(v);
    Working(Add32(t1, t2), v.a, v.b, v.c, Add32(v.d, t1), v.e, v.f, v.g)
  }

  /**
   * The round run backwards: a, b, c, e, f, g come back from b, c, d, f, g,
   * h, and the overwritten d and h are recovered by subtracting T1 and T2.
   */
  function UnRound(r: Working, k: bv32, w: bv32): (v: Working)
    ensures v.a == r.b && v.b == r.c && v.c == r.d
    ensures v.e == r.f && v.f == r.g && v.g == r.h
  {
    var t2 := Add32(BigSigma0(r.b), Maj(r.b, r.c, r.d));
    var t1 := Sub32(r.a, t2);
    var h := Sub32(Sub32(Sub32(Sub32(t1, w), k), Ch(r.f, r.g, r.h)), BigSigma1(r.f));
    Working(r.b, r.c, r.d, Sub32(r.e, t1), r.f, r.g, r.h, h)
  }

  /** UnRound undoes a round. */
  lemma UnRoundRound(v: Working, k: bv32, w: bv32)
    ensures UnRound(Round(v, k, w), k, w) == v
  {
    var x1 := Add32(v.h, BigSigma1(v.e));
    var x2 := Add32(x1, Ch(v.e, v.f, v.g));
    var x3 := Add32(x2, k);
    var t1, t2 := T1(v, k, w), T2(v);
    SubAdd32(x3, w);
    SubAdd32(x2, k);
    SubAdd32(x1, Ch(v.e, v.f, v.g));
    SubAdd32(v.h, BigSigma1(v.e));
    SubAdd32(t1, t2);
    SubAdd32(v.d, t1);
  }

  /** A round undoes UnRound, so a round is a permutation of the working variables. */
  lemma RoundUnRound(r: Working, k: bv32, w: bv32)
    ensures Round(UnRound(r, k, w), k, w) == r
  {
    var v := UnRound(r, k, w);
    var t2 := Add32(BigSigma0(r.b), Maj(r.b, r.c, r.d));
    var t1 := Sub32(r.a, t2);
    var y1 := Sub32(t1, w);
    var y2 := Sub32(y1, k);
    var y3 := Sub32(y2, Ch(r.f, r.g, r.h));
    AddSub32(y3, BigSigma1(r.f));
    AddSub32(y2, Ch(r.f, r.g, r.h));
    AddSub32(y1, k);
    AddSub32(t1, w);
    assert T1(v, k, w) == t1;
    AddSub32(r.a, t2);
    AddSub32(r.e, t1);
  }

  /** The working variables after the first n rounds over schedule w. */
  function Rounds(v: Working, w: seq<bv32>, n: nat): Working
    requires |w| == 64 && n <= 64
  {
    if n == 0 then v else Round(Rounds(v, w, n - 1), K[n - 1], w[n - 1])
  }

  /** Rounds n - 1 down to 0 run backwards. */
  function UnRounds(r: Working, w: seq<bv32>, n: nat): Working
    requires |w| == 64 && n <= 64
    decreases n
  {
    if n == 0 then r else UnRounds(UnRound(r, K[n - 1], w[n - 1]), w, n - 1)
  }

  /** For a fixed schedule the rounds lose nothing: UnRounds recovers where they started. */
  lemma {:induction false} UnRoundsRounds(v: Working, w: seq<bv32>, n: nat)
    requires |w| == 64 && n <= 64
    ensures UnRounds(Rounds(v, w, n), w, n) == v
  {
    if n > 0 {
      UnRoundsRounds(v, w, n - 1);
      UnRoundRound(Rounds(v, w, n - 1), K[n - 1], w[n - 1]);
    }
  }

  /** Every outcome of the rounds is reached, from the variables UnRounds gives. */
  lemma {:induction false} RoundsUnRounds(r: Working, w: seq<bv32>, n: nat)
    requires |w| == 64 && n <= 64
    ensures Rounds(UnRounds(r, w, n), w, n) == r
    decreases n
  {
    if n > 0 {
      RoundsUnRounds(UnRound(r, K[n - 1], w[n - 1]), w, n - 1);
      RoundUnRound(r, K[n - 1], w[n - 1]);
    }
  }

  /** The hash update after a block: each hash word plus its working variable, modulo 2^32. */
  function AddHash(h: seq<bv32>, v: Working): (r: seq<bv32>)
    requires |h| == 8
    ensures |r| == 8
  {
    [Add32(h[0], v.a), Add32(h[1], v.b), Add32(h[2], v.c), Add32(h[3], v.d),
     Add32(h[4], v.e), Add32(h[5], v.f), Add32(h[6], v.g), Add32(h[7], v.h)]
  }

  /** The word-wise difference of two hash values, modulo 2^32. */
  function SubHash(r: seq<bv32>, h: seq<bv32>): (d: seq<bv32>)
    requires |r| == 8 && |h| == 8
    ensures |d| == 8
  {
    [Sub32(r[0], h[0]), Sub32(r[1], h[1]), Sub32(r[2], h[2]), Sub32(r[3], h[3]),
     Sub32(r[4], h[4]), Sub32(r[5], h[5]), Sub32(r[6], h[6]), Sub32(r[7], h[7])]
  }

  /** The hash update loses nothing: subtracting the old hash word by word gives the working variables back. */
  lemma AddHashLossless(h: seq<bv32>, v: Working)
    requires |h| == 8
    ensures SubHash(AddHash(h, v), h) == Words(v)
  {
    SubAddLeft32(h[0], v.a);
    SubAddLeft32(h[1], v.b);
    SubAddLeft32(h[2], v.c);
    SubAddLeft32(h[3], v.d);
    SubAddLeft32(h[4], v.e);
    SubAddLeft32(h[5], v.f);
    SubAddLeft32(h[6], v.g);
    SubAddLeft32(h[7], v.h);
  }

  /** The hash after one block: the 64 rounds from the hash, then the word-wise sum with it. */
  function CompressBlock(h: seq<bv32>, block: Block): (r: seq<bv32>)
    requires |h| == 8
    ensures |r| == 8
  {
    AddHash(h, Rounds(Load(h), Schedule(block), 64))
  }

  /** The hash after the first n blocks, in order. */
  function HashPrefix(h: seq<bv32>, blocks: seq<Block>, n: nat): (r: seq<bv32>)
    requires |h| == 8 && n <= |blocks|
    ensures |r| == 8
  {
    if n == 0 then h else CompressBlock(HashPrefix(h, blocks, n - 1), blocks[n - 1])
  }

  /** The hash after all the blocks. */
  function HashBlocks(h: seq<bv32>, blocks: seq<Block>): (r: seq<bv32>)
    requires |h| == 8
    ensures |r| == 8
  {
    HashPrefix(h, blocks, |blocks|)
  }

  /** The digest of a message: the hash words after all blocks, big-endian. */
  function Digest(msg: seq<bv8>): (d: seq<bv8>)
    requires |msg| < MaxLength
    ensures |d| == 32
  {
    BytesOfWords32(HashBlocks(IV, MessageBlocks(msg)))
  }

  /**
   * The body of `compute` for one block, once the schedule is prepared: the
   * working variables a .. h start as the hash words and go through the 64
   * rounds, round t using `K[t]` and schedule word t; then each hash word is
   * increased by its working variable.
   */
  method ProcessBlock(prev: seq<bv32>, oldSchedule: seq<bv32>, block: Block) returns (hash: seq<bv32>, schedule: seq<bv32>)
    requires |prev| == 8 && |oldSchedule| == 64
    ensures schedule == Schedule(block)
    ensures hash == CompressBlock(prev, block)
  {
    schedule := PrepareSchedule(oldSchedule, block);
    var a, b, c, d, e, f, g, h := prev[0], prev[1], prev[2], prev[3], prev[4], prev[5], prev[6], prev[7];
    for t := 0 to 64
      invariant Working(a, b, c, d, e, f, g, h) == Rounds(Load(prev), schedule, t)
    {
      var t1 := Add32(Add32(Add32(Add32(h, BigSigma1(e)), Ch(e, f, g)), K[t]), schedule[t]);
      var t2 := Add32(BigSigma0(a), Maj(a, b, c));
      h := g;
      g := f;
      f := e;
      e := Add32(d, t1);
      d := c;
      c := b;
      b := a;
      a := Add32(t1, t2);
    }
    hash := [Add32(prev[0], a), Add32(prev[1], b), Add32(prev[2], c), Add32(prev[3], d),
             Add32(prev[4], e), Add32(prev[5], f), Add32(prev[6], g), Add32(prev[7], h)];
  }

  /**
   * The loop of `compute`: block i - 1 is processed for i from 1 to the
   * number of blocks, each time from the hash and schedule the previous
   * block left.
   */
  method CompressAll(prev: seq<bv32>, oldSchedule: seq<bv32>, blocks: seq<Block>) returns (hash: seq<bv32>, schedule: seq<bv32>)
    requires |prev| == 8 && |oldSchedule| == 64
    ensures |schedule| == 64
    ensures hash == HashBlocks(prev, blocks)
    ensures schedule == if blocks == [] then oldSchedule else Schedule(blocks[|blocks| - 1])
  {
    hash, schedule := prev, oldSchedule;
    for i := 1 to |blocks| + 1
      invariant |hash| == 8 && |schedule| == 64
      invariant hash == HashPrefix(prev, blocks, i - 1)
      invariant schedule == if i == 1 then oldSchedule else Schedule(blocks[i - 2])
    {
      hash, schedule := ProcessBlock(hash, schedule, blocks[i - 1]);
    }
  }

  /** The hash state: the hash words, the block list and the message schedule. */
  class Sha256 {
    var hash: seq<bv32>
    var state: seq<Block>
    var schedule: seq<bv32>

    predicate Valid()
      reads this
    {
      |hash| == 8 && |schedule| == 64
    }

    /** `new`: the initial hash value, the blocks of the message and a zero schedule. */
    constructor (msg: seq<bv8>)
      requires |msg| < MaxLength
      ensures Valid()
      ensures hash == IV && state == MessageBlocks(msg)
      ensures forall t :: 0 <= t < 64 ==> schedule[t] == 0
    {
      var blocks := Preprocess(msg);
      hash := IV;
      state := blocks;
      schedule := seq(64, _ => 0);
    }

    /**
     * `compute`: for every block, the schedule is prepared, the working
     * variables run the 64 rounds from the hash, and each hash word is
     * increased by its working variable. The block list is left as it is.
     */
    method Compute()
      requires Valid()
      modifies this
      ensures Valid()
      ensures hash == HashBlocks(old(hash), old(state))
      ensures state == old(state)
      ensures schedule == if state == [] then old(schedule) else Schedule(state[|state| - 1])
    {
      hash, schedule := CompressAll(hash, schedule, state);
    }

    /**
     * `result`: runs `compute` again from the current hash and returns the
     * eight hash words as 32 big-endian bytes.
     */
    method Result() returns (digest: seq<bv8>)
      requires Valid()
      modifies this
      ensures Valid() && state == old(state)
      ensures hash == HashBlocks(old(hash), state)
      ensures schedule == if state == [] then old(schedule) else Schedule(state[|state| - 1])
      ensures digest == BytesOfWords32(hash) && |digest| == 32
    {
      Compute();
      digest := BytesOfWords32(hash);
    }
  }

  /** A fresh object's `result` is the digest of its message. */
  method Hash(msg: seq<bv8>) returns (digest: seq<bv8>)
    requires |msg| < MaxLength
    ensures digest == Digest(msg)
    ensures forall i :: 0 <= i < 8 ==> digest[4 * i..4 * i + 4] == BytesOf32(HashBlocks(IV, MessageBlocks(msg))[i])
  {
    var s := new Sha256(msg);
    digest := s.Result();
    forall i | 0 <= i < 8 ensures digest[4 * i..4 * i + 4] == BytesOf32(HashBlocks(IV, MessageBlocks(msg))[i]) {
      BytesOfWords32At(HashBlocks(IV, MessageBlocks(msg)), i);
    }
  }
}
