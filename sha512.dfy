/**
 * SHA-512 as `src/sha/sha512.rs` computes it: the message is padded into
 * 1024-bit blocks of sixteen 64-bit words, and an object holding the hash
 * words, the block list and the message schedule runs the 80-round
 * compression over every block.
 */
module Sha512 {
  import opened ShaBytes

  /** The round constants `K`. */
  const K: seq<bv64> := [
    0x428a2f98d728ae22, 0x7137449123ef65cd, 0xb5c0fbcfec4d3b2f, 0xe9b5dba58189dbbc,
    0x3956c25bf348b538, 0x59f111f1b605d019, 0x923f82a4af194f9b, 0xab1c5ed5da6d8118,
    0xd807aa98a3030242, 0x12835b0145706fbe, 0x243185be4ee4b28c, 0x550c7dc3d5ffb4e2,
    0x72be5d74f27b896f, 0x80deb1fe3b1696b1, 0x9bdc06a725c71235, 0xc19bf174cf692694,
    0xe49b69c19ef14ad2, 0xefbe4786384f25e3, 0x0fc19dc68b8cd5b5, 0x240ca1cc77ac9c65,
    0x2de92c6f592b0275, 0x4a7484aa6ea6e483, 0x5cb0a9dcbd41fbd4, 0x76f988da831153b5,
    0x983e5152ee66dfab, 0xa831c66d2db43210, 0xb00327c898fb213f, 0xbf597fc7beef0ee4,
    0xc6e00bf33da88fc2, 0xd5a79147930aa725, 0x06ca6351e003826f, 0x142929670a0e6e70,
    0x27b70a8546d22ffc, 0x2e1b21385c26c926, 0x4d2c6dfc5ac42aed, 0x53380d139d95b3df,
    0x650a73548baf63de, 0x766a0abb3c77b2a8, 0x81c2c92e47edaee6, 0x92722c851482353b,
    0xa2bfe8a14cf10364, 0xa81a664bbc423001, 0xc24b8b70d0f89791, 0xc76c51a30654be30,
    0xd192e819d6ef5218, 0xd69906245565a910, 0xf40e35855771202a, 0x106aa07032bbd1b8,
    0x19a4c116b8d2d0c8, 0x1e376c085141ab53, 0x2748774cdf8eeb99, 0x34b0bcb5e19b48a8,
    0x391c0cb3c5c95a63, 0x4ed8aa4ae3418acb, 0x5b9cca4f7763e373, 0x682e6ff3d6b2b8a3,
    0x748f82ee5defb2fc, 0x78a5636f43172f60, 0x84c87814a1f0ab72, 0x8cc702081a6439ec,
    0x90befffa23631e28, 0xa4506cebde82bde9, 0xbef9a3f7b2c67915, 0xc67178f2e372532b,
    0xca273eceea26619c, 0xd186b8c721c0c207, 0xeada7dd6cde0eb1e, 0xf57d4f7fee6ed178,
    0x06f067aa72176fba, 0x0a637dc5a2c898a6, 0x113f9804bef90dae, 0x1b710b35131c471b,
    0x28db77f523047d84, 0x32caab7b40c72493, 0x3c9ebe0a15c9bebc, 0x431d67c49c100d4c,
    0x4cc5d4becb3e42b6, 0x597f299cfc657e2a, 0x5fcb6fab3ad6faec, 0x6c44198c4a475817
  ]

  /** A message block: sixteen words, as `[u64; 16]`. */
  type Block = b: seq<bv64> | |b| == 16 witness [0, 0, 0, 0, 0, 0, 0, 0, 0, 0, 0, 0, 0, 0, 0, 0]

  /** The initial hash value `new` loads. */
  const IV: seq<bv64> := [
    0x6A09E667F3BCC908, 0xBB67AE8584CAA73B, 0x3C6EF372FE94F82B, 0xA54FF53A5F1D36F1,
    0x510E527FADE682D1, 0x9B05688C2B3E6C1F, 0x1F83D9ABFB41BD6B, 0x5BE0CD19137E2179
  ]

  // The logical functions

  function Ch(x: bv64, y: bv64, z: bv64): bv64 {
    (x & y) ^ (!x & z)
  }

  function Maj(x: bv64, y: bv64, z: bv64): bv64 {
    (x & y) ^ (x & z) ^ (y & z)
  }

  /** Where x has a one, Ch has y's bit. */
  lemma ChTakesY(x: bv64, y: bv64, z: bv64)
    ensures Ch(x, y, z) & x == y & x
  {
  }

  /** Where x has a zero, Ch has z's bit. */
  lemma ChTakesZ(x: bv64, y: bv64, z: bv64)
    ensures Ch(x, y, z) & !x == z & !x
  {
  }

  /** Where x and y agree Maj has their bit; where they differ it has z's bit. */
  lemma MajIsMajority(x: bv64, y: bv64, z: bv64)
    ensures Maj(x, y, z) & !(x ^ y) == x & !(x ^ y) && Maj(x, y, z) & (x ^ y) == z & (x ^ y)
  {
  }

  /** Maj does not depend on the order of its arguments. */
  lemma MajSymmetric(x: bv64, y: bv64, z: bv64)
    ensures Maj(x, y, z) == Maj(y, x, z) == Maj(x, z, y)
  {
  }

  function BigSigma0(x: bv64): bv64 {
    x.RotateRight(28) ^ x.RotateRight(34) ^ x.RotateRight(39)
  }

  function BigSigma1(x: bv64): bv64 {
    x.RotateRight(14) ^ x.RotateRight(18) ^ x.RotateRight(41)
  }

  function SmallSigma0(x: bv64): bv64 {
    x.RotateRight(1) ^ x.RotateRight(8) ^ (x >> 7)
  }

  function SmallSigma1(x: bv64): bv64 {
    x.RotateRight(19) ^ x.RotateRight(61) ^ (x >> 6)
  }

  // preprocess

  /** The blocks of a message: its padded bytes read as big-endian words, sixteen to a block. */
  function MessageBlocks(msg: seq<bv8>): (blocks: seq<Block>)
    requires |msg| < MaxLength
    ensures |blocks| == PaddedLength(|msg|, 128, 16) / 128
  {
    BlocksOf64(Padded(msg, 128, 16))
  }

  /** Word k of block i holds bytes 128i + 8k .. 128i + 8k + 7 of the padded message, big-endian. */
  lemma MessageBlocksAt(msg: seq<bv8>, i: nat, k: nat)
    requires |msg| < MaxLength && i < |MessageBlocks(msg)| && k < 16
    ensures 128 * i + 8 * k + 8 <= |Padded(msg, 128, 16)|
    ensures MessageBlocks(msg)[i][k] == Word64Of(Padded(msg, 128, 16)[128 * i + 8 * k..128 * i + 8 * k + 8])
  {
    BlocksOf64At(Padded(msg, 128, 16), i, k);
  }

  /** `preprocess`: fills the padded buffer, then groups it into words and blocks. */
  method Preprocess(msg: seq<bv8>) returns (blocks: seq<Block>)
    requires |msg| < MaxLength
    ensures blocks == MessageBlocks(msg)
  {
    var res := PadMessage(msg, 128, 16);
    blocks := BlocksOf64(res);
  }

  // prepare_schedule

  /** Schedule word t from words t - 2, t - 7, t - 15 and t - 16, added in the source's order. */
  function NextWord(w2: bv64, w7: bv64, w15: bv64, w16: bv64): bv64 {
    Add64(Add64(Add64(SmallSigma1(w2), w7), SmallSigma0(w15)), w16)
  }

  /** The first n schedule words of a block. */
  function ScheduleUpTo(block: seq<bv64>, n: nat): (w: seq<bv64>)
    requires |block| == 16 && 16 <= n <= 80
    ensures |w| == n && w[..16] == block
  {
    if n == 16 then block
    else
      var p := ScheduleUpTo(block, n - 1);
      p + [NextWord(p[n - 3], p[n - 8], p[n - 16], p[n - 17])]
  }

  /** Computing more words leaves the earlier ones as they were. */
  lemma {:induction false} SchedulePrefix(block: seq<bv64>, m: nat, n: nat, i: nat)
    requires |block| == 16 && 16 <= m <= n <= 80 && i < m
    ensures ScheduleUpTo(block, n)[i] == ScheduleUpTo(block, m)[i]
    decreases n
  {
    if m < n {
      SchedulePrefix(block, m, n - 1, i);
    }
  }

  /** The message schedule of a block. */
  function Schedule(block: seq<bv64>): (w: seq<bv64>)
    requires |block| == 16
    ensures |w| == 80 && w[..16] == block
  {
    ScheduleUpTo(block, 80)
  }

  /**
   * 80 words expand a block when the first 16 are the block and every later
   * word obeys the recurrence
   * W[t] = σ1(W[t - 2]) + W[t - 7] + σ0(W[t - 15]) + W[t - 16] mod 2^64.
   */
  ghost predicate Expands(block: seq<bv64>, w: seq<bv64>) {
    && |block| == 16 && |w| == 80 && w[..16] == block
    && forall t {:trigger NextWord(w[t - 2], w[t - 7], w[t - 15], w[t - 16])} :: 16 <= t < 80 ==>
         w[t] == NextWord(w[t - 2], w[t - 7], w[t - 15], w[t - 16])
  }

  /** Word t of the schedule obeys the recurrence. */
  lemma ScheduleAt(block: seq<bv64>, t: nat)
    requires |block| == 16 && 16 <= t < 80
    ensures Schedule(block)[t] == NextWord(Schedule(block)[t - 2], Schedule(block)[t - 7], Schedule(block)[t - 15], Schedule(block)[t - 16])
  {
    SchedulePrefix(block, t + 1, 80, t);
    SchedulePrefix(block, t + 1, 80, t - 2);
    SchedulePrefix(block, t + 1, 80, t - 7);
    SchedulePrefix(block, t + 1, 80, t - 15);
    SchedulePrefix(block, t + 1, 80, t - 16);
  }

  /** The schedule obeys the recurrence. */
  lemma ScheduleExpands(block: seq<bv64>)
    requires |block| == 16
    ensures Expands(block, Schedule(block))
  {
    var w := Schedule(block);
    forall t {:trigger NextWord(w[t - 2], w[t - 7], w[t - 15], w[t - 16])} | 16 <= t < 80
      ensures w[t] == NextWord(w[t - 2], w[t - 7], w[t - 15], w[t - 16])
    {
      ScheduleAt(block, t);
    }
  }

  /** The recurrence has one solution: whatever expands the block is its schedule. */
  lemma ScheduleUnique(block: seq<bv64>, w: seq<bv64>)
    requires Expands(block, w)
    ensures w == Schedule(block)
  {
    for n := 16 to 80
      invariant w[..n] == ScheduleUpTo(block, n)
    {
      assert w[n] == NextWord(w[n - 2], w[n - 7], w[n - 15], w[n - 16]);
      assert w[..n + 1] == w[..n] + [w[n]];
    }
    assert w[..80] == w;
  }

  /**
   * `prepare_schedule`: copies the block into the first 16 entries of the
   * schedule it is given and fills entries 16 .. 80 by the recurrence; what
   * the old schedule held does not matter.
   */
  method PrepareSchedule(schedule: seq<bv64>, block: seq<bv64>) returns (w: seq<bv64>)
    requires |schedule| == 80 && |block| == 16
    ensures w == Schedule(block)
  {
    var a := new bv64[80](i requires 0 <= i < 80 => schedule[i]);
    ghost var target := Schedule(block);
    forall i | 0 <= i < 16 {
      a[i] := block[i];
    }
    for t := 16 to 80
      invariant forall j :: 0 <= j < t ==> a[j] == target[j]
    {
      ScheduleAt(block, t);
      a[t] := NextWord(a[t - 2], a[t - 7], a[t - 15], a[t - 16]);
    }
    w := a[..];
  }

  // compute

  /** The working variables a .. h of `compute`. */
  datatype Working = Working(a: bv64, b: bv64, c: bv64, d: bv64, e: bv64, f: bv64, g: bv64, h: bv64)

  /** The working variables as loaded from eight hash words. */
  function Load(hash: seq<bv64>): (v: Working)
    requires |hash| == 8
  {
    Working(hash[0], hash[1], hash[2], hash[3], hash[4], hash[5], hash[6], hash[7])
  }

  /** The working variables in order a .. h. */
  function Words(v: Working): (ws: seq<bv64>) {
    [v.a, v.b, v.c, v.d, v.e, v.f, v.g, v.h]
  }

  /** Loading eight words and listing them again gives the words back. */
  lemma WordsLoad(hash: seq<bv64>)
    requires |hash| == 8
    ensures Words(Load(hash)) == hash
  {
  }

  /** The first temporary of a round: h + Σ1(e) + Ch(e, f, g) + K[t] + W[t]. */
  function T1(v: Working, k: bv64, w: bv64): bv64 {
    Add64(Add64(Add64(Add64(v.h, BigSigma1(v.e)), Ch(v.e, v.f, v.g)), k), w)
  }

  /** The second temporary of a round: Σ0(a) + Maj(a, b, c). */
  function T2(v: Working): bv64 {
    Add64(BigSigma0(v.a), Maj(v.a, v.b, v.c))
  }

  /**
   * One round: every working variable moves one place down, except that e
   * receives d + T1 and a receives T1 + T2.
   */
  function Round(v: Working, k: bv64, w: bv64): (r: Working)
    ensures r.b == v.a && r.c == v.b && r.d == v.c
    ensures r.f == v.e && r.g == v.f && r.h == v.g
  {
    var t1, t2 := T1(v, k, w), T2(v);
    Working(Add64(t1, t2), v.a, v.b, v.c, Add64(v.d, t1), v.e, v.f, v.g)
  }

  /**
   * The round run backwards: a, b, c, e, f, g come back from b, c, d, f, g,
   * h, and the overwritten d and h are recovered by subtracting T1 and T2.
   */
  function UnRound(r: Working, k: bv64, w: bv64): (v: Working)
    ensures v.a == r.b && v.b == r.c && v.c == r.d
    ensures v.e == r.f && v.f == r.g && v.g == r.h
  {
    var t2 := Add64(BigSigma0(r.b), Maj(r.b, r.c, r.d));
    var t1 := Sub64(r.a, t2);
    var h := Sub64(Sub64(Sub64(Sub64(t1, w), k), Ch(r.f, r.g, r.h)), BigSigma1(r.f));
    Working(r.b, r.c, r.d, Sub64(r.e, t1), r.f, r.g, r.h, h)
  }

  /** UnRound undoes a round. */
  lemma UnRoundRound(v: Working, k: bv64, w: bv64)
    ensures UnRound(Round(v, k, w), k, w) == v
  {
    var x1 := Add64(v.h, BigSigma1(v.e));
    var x2 := Add64(x1, Ch(v.e, v.f, v.g));
    var x3 := Add64(x2, k);
    var t1, t2 := T1(v, k, w), T2(v);
    SubAdd64(x3, w);
    SubAdd64(x2, k);
    SubAdd64(x1, Ch(v.e, v.f, v.g));
    SubAdd64(v.h, BigSigma1(v.e));
    SubAdd64(t1, t2);
    SubAdd64(v.d, t1);
  }

  /** A round undoes UnRound, so a round is a permutation of the working variables. */
  lemma RoundUnRound(r: Working, k: bv64, w: bv64)
    ensures Round(UnRound(r, k, w), k, w) == r
  {
    var v := UnRound(r, k, w);
    var t2 := Add64(BigSigma0(r.b), Maj(r.b, r.c, r.d));
    var t1 := Sub64(r.a, t2);
    var y1 := Sub64(t1, w);
    var y2 := Sub64(y1, k);
    var y3 := Sub64(y2, Ch(r.f, r.g, r.h));
    AddSub64(y3, BigSigma1(r.f));
    AddSub64(y2, Ch(r.f, r.g, r.h));
    AddSub64(y1, k);
    AddSub64(t1, w);
    assert T1(v, k, w) == t1;
    AddSub64(r.a, t2);
    AddSub64(r.e, t1);
  }

  /** The working variables after the first n rounds over schedule w. */
  function Rounds(v: Working, w: seq<bv64>, n: nat): Working
    requires |w| == 80 && n <= 80
  {
    if n == 0 then v else Round(Rounds(v, w, n - 1), K[n - 1], w[n - 1])
  }

  /** Rounds n - 1 down to 0 run backwards. */
  function UnRounds(r: Working, w: seq<bv64>, n: nat): Working
    requires |w| == 80 && n <= 80
    decreases n
  {
    if n == 0 then r else UnRounds(UnRound(r, K[n - 1], w[n - 1]), w, n - 1)
  }

  /** For a fixed schedule the rounds lose nothing: UnRounds recovers where they started. */
  lemma {:induction false} UnRoundsRounds(v: Working, w: seq<bv64>, n: nat)
    requires |w| == 80 && n <= 80
    ensures UnRounds(Rounds(v, w, n), w, n) == v
  {
    if n > 0 {
      UnRoundsRounds(v, w, n - 1);
      UnRoundRound(Rounds(v, w, n - 1), K[n - 1], w[n - 1]);
    }
  }

  /** Every outcome of the rounds is reached, from the variables UnRounds gives. */
  lemma {:induction false} RoundsUnRounds(r: Working, w: seq<bv64>, n: nat)
    requires |w| == 80 && n <= 80
    ensures Rounds(UnRounds(r, w, n), w, n) == r
    decreases n
  {
    if n > 0 {
      RoundsUnRounds(UnRound(r, K[n - 1], w[n - 1]), w, n - 1);
      RoundUnRound(r, K[n - 1], w[n - 1]);
    }
  }

  /** The hash update after a block: each hash word plus its working variable, modulo 2^64. */
  function AddHash(h: seq<bv64>, v: Working): (r: seq<bv64>)
    requires |h| == 8
    ensures |r| == 8
  {
    [Add64(h[0], v.a), Add64(h[1], v.b), Add64(h[2], v.c), Add64(h[3], v.d),
     Add64(h[4], v.e), Add64(h[5], v.f), Add64(h[6], v.g), Add64(h[7], v.h)]
  }

  /** The word-wise difference of two hash values, modulo 2^64. */
  function SubHash(r: seq<bv64>, h: seq<bv64>): (d: seq<bv64>)
    requires |r| == 8 && |h| == 8
    ensures |d| == 8
  {
    [Sub64(r[0], h[0]), Sub64(r[1], h[1]), Sub64(r[2], h[2]), Sub64(r[3], h[3]),
     Sub64(r[4], h[4]), Sub64(r[5], h[5]), Sub64(r[6], h[6]), Sub64(r[7], h[7])]
  }

  /** The hash update loses nothing: subtracting the old hash word by word gives the working variables back. */
  lemma AddHashLossless(h: seq<bv64>, v: Working)
    requires |h| == 8
    ensures SubHash(AddHash(h, v), h) == Words(v)
  {
    SubAddLeft64(h[0], v.a);
    SubAddLeft64(h[1], v.b);
    SubAddLeft64(h[2], v.c);
    SubAddLeft64(h[3], v.d);
    SubAddLeft64(h[4], v.e);
    SubAddLeft64(h[5], v.f);
    SubAddLeft64(h[6], v.g);
    SubAddLeft64(h[7], v.h);
  }

  /** The hash after one block: the 80 rounds from the hash, then the word-wise sum with it. */
  function CompressBlock(h: seq<bv64>, block: Block): (r: seq<bv64>)
    requires |h| == 8
    ensures |r| == 8
  {
    AddHash(h, Rounds(Load(h), Schedule(block), 80))
  }

  /** The hash after the first n blocks, in order. */
  function HashPrefix(h: seq<bv64>, blocks: seq<Block>, n: nat): (r: seq<bv64>)
    requires |h| == 8 && n <= |blocks|
    ensures |r| == 8
  {
    if n == 0 then h else CompressBlock(HashPrefix(h, blocks, n - 1), blocks[n - 1])
  }

  /** The hash after all the blocks. */
  function HashBlocks(h: seq<bv64>, blocks: seq<Block>): (r: seq<bv64>)
    requires |h| == 8
    ensures |r| == 8
  {
    HashPrefix(h, blocks, |blocks|)
  }

  /** The digest of a message: the hash words after all blocks, big-endian. */
  function Digest(msg: seq<bv8>): (d: seq<bv8>)
    requires |msg| < MaxLength
    ensures |d| == 64
  {
    BytesOfWords64(HashBlocks(IV, MessageBlocks(msg)))
  }

  /**
   * The body of `compute` for one block, once the schedule is prepared: the
   * working variables a .. h start as the hash words and go through the 80
   * rounds, round t using `K[t]` and schedule word t; then each hash word is
   * increased by its working variable.
   */
  method ProcessBlock(prev: seq<bv64>, oldSchedule: seq<bv64>, block: Block) returns (hash: seq<bv64>, schedule: seq<bv64>)
    requires |prev| == 8 && |oldSchedule| == 80
    ensures schedule == Schedule(block)
    ensures hash == CompressBlock(prev, block)
  {
    schedule := PrepareSchedule(oldSchedule, block);
    var a, b, c, d, e, f, g, h := prev[0], prev[1], prev[2], prev[3], prev[4], prev[5], prev[6], prev[7];
    for t := 0 to 80
      invariant Working(a, b, c, d, e, f, g, h) == Rounds(Load(prev), schedule, t)
    {
      var t1 := Add64(Add64(Add64(Add64(h, BigSigma1(e)), Ch(e, f, g)), K[t]), schedule[t]);
      var t2 := Add64(BigSigma0(a), Maj(a, b, c));
      h := g;
      g := f;
      f := e;
      e := Add64(d, t1);
      d := c;
      c := b;
      b := a;
      a := Add64(t1, t2);
    }
    hash := [Add64(prev[0], a), Add64(prev[1], b), Add64(prev[2], c), Add64(prev[3], d),
             Add64(prev[4], e), Add64(prev[5], f), Add64(prev[6], g), Add64(prev[7], h)];
  }

  /**
   * The loop of `compute`: block i - 1 is processed for i from 1 to the
   * number of blocks, each time from the hash and schedule the previous
   * block left.
   */
  method CompressAll(prev: seq<bv64>, oldSchedule: seq<bv64>, blocks: seq<Block>) returns (hash: seq<bv64>, schedule: seq<bv64>)
    requires |prev| == 8 && |oldSchedule| == 80
    ensures |schedule| == 80
    ensures hash == HashBlocks(prev, blocks)
    ensures schedule == if blocks == [] then oldSchedule else Schedule(blocks[|blocks| - 1])
  {
    hash, schedule := prev, oldSchedule;
    for i := 1 to |blocks| + 1
      invariant |hash| == 8 && |schedule| == 80
      invariant hash == HashPrefix(prev, blocks, i - 1)
      invariant schedule == if i == 1 then oldSchedule else Schedule(blocks[i - 2])
    {
      hash, schedule := ProcessBlock(hash, schedule, blocks[i - 1]);
    }
  }

  /** The hash state: the hash words, the block list and the message schedule. */
  class Sha512 {
    var hash: seq<bv64>
    var state: seq<Block>
    var schedule: seq<bv64>

    predicate Valid()
      reads this
    {
      |hash| == 8 && |schedule| == 80
    }

    /** `new`: the initial hash value, the blocks of the message and a zero schedule. */
    constructor (msg: seq<bv8>)
      requires |msg| < MaxLength
      ensures Valid()
      ensures hash == IV && state == MessageBlocks(msg)
      ensures forall t :: 0 <= t < 80 ==> schedule[t] == 0
    {
      var blocks := Preprocess(msg);
      hash := IV;
      state := blocks;
      schedule := seq(80, _ => 0);
    }

    /**
     * `compute`: for every block, the schedule is prepared, the working
     * variables run the 80 rounds from the hash, and each hash word is
     * increased by its working variable. The block list is left as it is.
     */
    method Compute()
      requires Valid()
      modifies this
      ensures Valid()
      ensures hash == HashBlocks(old(hash), old(state))
      ensures state == old(state)
      ensures schedule == if state == [] then old(schedule) else Schedule(state[|state| - 1])
    {
      hash, schedule := CompressAll(hash, schedule, state);
    }

    /**
     * `result`: runs `compute` again from the current hash and returns the
     * eight hash words as 64 big-endian bytes.
     */
    method Result() returns (digest: seq<bv8>)
      requires Valid()
      modifies this
      ensures Valid() && state == old(state)
      ensures hash == HashBlocks(old(hash), state)
      ensures schedule == if state == [] then old(schedule) else Schedule(state[|state| - 1])
      ensures digest == BytesOfWords64(hash) && |digest| == 64
    {
      Compute();
      digest := BytesOfWords64(hash);
    }
  }

  /** A fresh object's `result` is the digest of its message. */
  method Hash(msg: seq<bv8>) returns (digest: seq<bv8>)
    requires |msg| < MaxLength
    ensures digest == Digest(msg)
    ensures forall i :: 0 <= i < 8 ==> digest[8 * i..8 * i + 8] == BytesOf64(HashBlocks(IV, MessageBlocks(msg))[i])
  {
    var s := new Sha512(msg);
    digest := s.Result();
    forall i | 0 <= i < 8 ensures digest[8 * i..8 * i + 8] == BytesOf64(HashBlocks(IV, MessageBlocks(msg))[i]) {
      BytesOfWords64At(HashBlocks(IV, MessageBlocks(msg)), i);
    }
  }
}
