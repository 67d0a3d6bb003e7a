/**
 * SHA-1 as `src/sha/sha1.rs` computes it: the message is padded into
 * 512-bit blocks of sixteen 32-bit words, and an object holding the five
 * hash words, the block list and the message schedule runs the 80-round
 * compression over every block.
 */
module Sha1 {
  import opened ShaBytes
  import Sha256

  /** A message block: sixteen words, as `[u32; 16]`. */
  type Block = b: seq<bv32> | |b| == 16 witness [0, 0, 0, 0, 0, 0, 0, 0, 0, 0, 0, 0, 0, 0, 0, 0]

  /** The initial hash value `new` loads. */
  const IV: seq<bv32> := [0x67452301, 0xefcdab89, 0x98badcfe, 0x10325476, 0xc3d2e1f0]

  // Rotations

  /** `rotate_left(5)`. */
  function RotL5(x: bv32): bv32 {
    x.RotateLeft(5)
  }

  /** `rotate_left(1)`. */
  function RotL1(x: bv32): bv32 {
    x.RotateLeft(1)
  }

  /** `rotate_left(30)`. */
  function RotL30(x: bv32): bv32 {
    x.RotateLeft(30)
  }

  /** The rotation right by 30 bits, the inverse of RotL30. */
  function RotR30(x: bv32): bv32 {
    x.RotateRight(30)
  }

  /** Rotating left by 30 and then right by 30 gives the word back. */
  lemma RotR30L30(x: bv32)
    ensures RotR30(RotL30(x)) == x
  {
    assert RotR30(x.RotateLeft(30)) == x.RotateLeft(30).RotateRight(30);
  }

  /** Rotating right by 30 and then left by 30 gives the word back. */
  lemma RotL30R30(x: bv32)
    ensures RotL30(RotR30(x)) == x
  {
    assert RotL30(x.RotateRight(30)) == x.RotateRight(30).RotateLeft(30);
  }

  // The round function and constant selectors

  /**
   * `f(t)` applied to (x, y, z): choice in rounds 0 .. 19, parity in rounds
   * 20 .. 39 and 60 .. 79, majority in rounds 40 .. 59. The source has no
   * function for any other round.
   */
  function F(t: nat, x: bv32, y: bv32, z: bv32): bv32
    requires t < 80
  {
    if t <= 19 then (x & y) ^ (!x & z)
    else if t <= 39 then x ^ y ^ z
    else if t <= 59 then (x & y) ^ (x & z) ^ (y & z)
    else x ^ y ^ z
  }

  /** `k(t)`: one constant for each run of twenty rounds. */
  function Kt(t: nat): bv32
    requires t < 80
  {
    if t <= 19 then 0x5a827999
    else if t <= 39 then 0x6ed9eba1
    else if t <= 59 then 0x8f1bbcdc
    else 0xca62c1d6
  }

  /**
   * The round function is SHA-256's choice function in the first twenty
   * rounds, SHA-256's majority function in rounds 40 .. 59, and the parity
   * of its arguments, independent of their order, in the other forty.
   */
  lemma FSelects(t: nat, x: bv32, y: bv32, z: bv32)
    requires t < 80
    ensures t < 20 ==> F(t, x, y, z) == Sha256.Ch(x, y, z)
    ensures 40 <= t < 60 ==> F(t, x, y, z) == Sha256.Maj(x, y, z)
    ensures (20 <= t < 40 || 60 <= t) ==> F(t, x, y, z) == x ^ y ^ z == F(t, z, x, y) == F(t, y, x, z)
  {
  }

  /**
   * Each constant is the integer part of 2^30 times the square root of 2, 3,
   * 5 and 10 in turn: its square is at most 2^60 n and the square of its
   * successor is above.
   */
  lemma KtIsRoot(t: nat)
    requires t < 80
    ensures var n := if t < 20 then 2 else if t < 40 then 3 else if t < 60 then 5 else 10;
      var k := Kt(t) as int;
      k * k <= n * 0x1000_0000_0000_0000 < (k + 1) * (k + 1)
  {
  }

  // preprocess

  /** The blocks of a message: its padded bytes read as big-endian words, sixteen to a block. */
  function MessageBlocks(msg: seq<bv8>): (blocks: seq<Block>)
    requires |msg| < MaxLength
    ensures |blocks| == PaddedLength(|msg|, 64, 8) / 64
  {
    BlocksOf32(Padded(msg, 64, 8))
  }

  /** Word k of block i holds bytes 64i + 4k .. 64i + 4k + 3 of the padded message, big-endian. */
  lemma MessageBlocksAt(msg: seq<bv8>, i: nat, k: nat)
    requires |msg| < MaxLength && i < |MessageBlocks(msg)| && k < 16
    ensures 64 * i + 4 * k + 4 <= |Padded(msg, 64, 8)|
    ensures MessageBlocks(msg)[i][k] == Word32Of(Padded(msg, 64, 8)[64 * i + 4 * k..64 * i + 4 * k + 4])
  {
    BlocksOf32At(Padded(msg, 64, 8), i, k);
  }

  /** `preprocess`: fills the padded buffer, then groups it into words and blocks. */
  method Preprocess(msg: seq<bv8>) returns (blocks: seq<Block>)
    requires |msg| < MaxLength
    ensures blocks == MessageBlocks(msg)
  {
    var res := PadMessage(msg, 64, 8);
    blocks := BlocksOf32(res);
  }

  // prepare_schedule

  /** Schedule word t from words t - 3, t - 8, t - 14 and t - 16. */
  function NextWord(w3: bv32, w8: bv32, w14: bv32, w16: bv32): bv32 {
    RotL1(w3 ^ w8 ^ w14 ^ w16)
  }

  /** The first n schedule words of a block. */
  function ScheduleUpTo(block: seq<bv32>, n: nat): (w: seq<bv32>)
    requires |block| == 16 && 16 <= n <= 80
    ensures |w| == n && w[..16] == block
  {
    if n == 16 then block
    else
      var p := ScheduleUpTo(block, n - 1);
      p + [NextWord(p[n - 4], p[n - 9], p[n - 15], p[n - 17])]
  }

  /** Computing more words leaves the earlier ones as they were. */
  lemma {:induction false} SchedulePrefix(block: seq<bv32>, m: nat, n: nat, i: nat)
    requires |block| == 16 && 16 <= m <= n <= 80 && i < m
    ensures ScheduleUpTo(block, n)[i] == ScheduleUpTo(block, m)[i]
    decreases n
  {
    if m < n {
      SchedulePrefix(block, m, n - 1, i);
    }
  }

  /** The message schedule of a block. */
  function Schedule(block: seq<bv32>): (w: seq<bv32>)
    requires |block| == 16
    ensures |w| == 80 && w[..16] == block
  {
    ScheduleUpTo(block, 80)
  }

  /**
   * 80 words expand a block when the first 16 are the block and every later
   * word obeys the recurrence
   * W[t] = ROTL1(W[t - 3] ^ W[t - 8] ^ W[t - 14] ^ W[t - 16]).
   */
  ghost predicate Expands(block: seq<bv32>, w: seq<bv32>) {
    && |block| == 16 && |w| == 80 && w[..16] == block
    && forall t {:trigger NextWord(w[t - 3], w[t - 8], w[t - 14], w[t - 16])} :: 16 <= t < 80 ==>
         w[t] == NextWord(w[t - 3], w[t - 8], w[t - 14], w[t - 16])
  }

  /** Word t of the schedule obeys the recurrence. */
  lemma ScheduleAt(block: seq<bv32>, t: nat)
    requires |block| == 16 && 16 <= t < 80
    ensures Schedule(block)[t] == NextWord(Schedule(block)[t - 3], Schedule(block)[t - 8], Schedule(block)[t - 14], Schedule(block)[t - 16])
  {
    SchedulePrefix(block, t + 1, 80, t);
    SchedulePrefix(block, t + 1, 80, t - 3);
    SchedulePrefix(block, t + 1, 80, t - 8);
    SchedulePrefix(block, t + 1, 80, t - 14);
    SchedulePrefix(block, t + 1, 80, t - 16);
  }

  /** The schedule obeys the recurrence. */
  lemma ScheduleExpands(block: seq<bv32>)
    requires |block| == 16
    ensures Expands(block, Schedule(block))
  {
    var w := Schedule(block);
    forall t {:trigger NextWord(w[t - 3], w[t - 8], w[t - 14], w[t - 16])} | 16 <= t < 80
      ensures w[t] == NextWord(w[t - 3], w[t - 8], w[t - 14], w[t - 16]) {
      ScheduleAt(block, t);
    }
  }

  /** The recurrence has one solution: whatever expands the block is its schedule. */
  lemma ScheduleUnique(block: seq<bv32>, w: seq<bv32>)
    requires Expands(block, w)
    ensures w == Schedule(block)
  {
    for n := 16 to 80
      invariant w[..n] == ScheduleUpTo(block, n)
    {
      assert w[n] == NextWord(w[n - 3], w[n - 8], w[n - 14], w[n - 16]);
      assert w[..n + 1] == w[..n] + [w[n]];
    }
    assert w[..80] == w;
  }

  /**
   * `prepare_schedule`: copies the block into the first 16 entries of the
   * schedule it is given and fills entries 16 .. 80 by the recurrence; what
   * the old schedule held does not matter.
   */
  method PrepareSchedule(schedule: seq<bv32>, block: seq<bv32>) returns (w: seq<bv32>)
    requires |schedule| == 80 && |block| == 16
    ensures w == Schedule(block)
  {
    var a := new bv32[80](i requires 0 <= i < 80 => schedule[i]);
    ghost var target := Schedule(block);
    forall i | 0 <= i < 16 {
      a[i] := block[i];
    }
    for t := 16 to 80
      invariant forall j :: 0 <= j < t ==> a[j] == target[j]
    {
      ScheduleAt(block, t);
      a[t] := NextWord(a[t - 3], a[t - 8], a[t - 14], a[t - 16]);
    }
    w := a[..];
  }

  // compute

  /** The working variables a .. e of `compute`. */
  datatype Working = Working(a: bv32, b: bv32, c: bv32, d: bv32, e: bv32)

  /** The working variables as loaded from five hash words. */
  function Load(hash: seq<bv32>): (v: Working)
    requires |hash| == 5
  {
    Working(hash[0], hash[1], hash[2], hash[3], hash[4])
  }

  /** The working variables in order a .. e. */
  function Words(v: Working): (ws: seq<bv32>) {
    [v.a, v.b, v.c, v.d, v.e]
  }

  /** Loading five words and listing them again gives the words back. */
  lemma WordsLoad(hash: seq<bv32>)
    requires |hash| == 5
    ensures Words(Load(hash)) == hash
  {
  }

  /** The temporary of round t: ROTL5(a) + f_t(b, c, d) + e + K_t + W_t. */
  function Temp(v: Working, t: nat, w: bv32): bv32
    requires t < 80
  {
    Add32(Add32(Add32(Add32(RotL5(v.a), F(t, v.b, v.c, v.d)), v.e), Kt(t)), w)
  }

  /**
   * Round t: e, d and b receive d, c and a, c receives b rotated left by 30,
   * and a receives the temporary.
   */
  function Round(v: Working, t: nat, w: bv32): (r: Working)
    requires t < 80
    ensures r.b == v.a && r.c == RotL30(v.b) && r.d == v.c && r.e == v.d
  {
    Working(Temp(v, t, w), v.a, RotL30(v.b), v.c, v.d)
  }

  /**
   * Round t run backwards: a, b, c, d come back from b, c rotated right by
   * 30, d and e, and the overwritten e is recovered by subtracting the other
   * summands of the temporary.
   */
  function UnRound(r: Working, t: nat, w: bv32): (v: Working)
    requires t < 80
    ensures v.a == r.b && v.b == RotR30(r.c) && v.c == r.d && v.d == r.e
  {
    var b := RotR30(r.c);
    var e := Sub32(Sub32(Sub32(r.a, w), Kt(t)), Add32(RotL5(r.b), F(t, b, r.d, r.e)));
    Working(r.b, b, r.d, r.e, e)
  }

  /** UnRound undoes a round. */
  lemma UnRoundRound(v: Working, t: nat, w: bv32)
    requires t < 80
    ensures UnRound(Round(v, t, w), t, w) == v
  {
    RotR30L30(v.b);
    var x1 := Add32(RotL5(v.a), F(t, v.b, v.c, v.d));
    var x2 := Add32(x1, v.e);
    var x3 := Add32(x2, Kt(t));
    SubAdd32(x3, w);
    SubAdd32(x2, Kt(t));
    SubAddLeft32(x1, v.e);
    var r := Round(v, t, w);
    var u := UnRound(r, t, w);
    assert Sub32(Sub32(r.a, w), Kt(t)) == x2;
    assert Add32(RotL5(r.b), F(t, u.b, r.d, r.e)) == x1;
  }

  /** A round undoes UnRound, so a round is a permutation of the working variables. */
  lemma RoundUnRound(r: Working, t: nat, w: bv32)
    requires t < 80
    ensures Round(UnRound(r, t, w), t, w) == r
  {
    var v := UnRound(r, t, w);
    RotL30R30(r.c);
    var y1 := Sub32(r.a, w);
    var y2 := Sub32(y1, Kt(t));
    var x1 := Add32(RotL5(r.b), F(t, v.b, v.c, v.d));
    AddSubLeft32(y2, x1);
    AddSub32(y1, Kt(t));
    AddSub32(r.a, w);
    assert Temp(v, t, w) == Add32(Add32(Add32(x1, v.e), Kt(t)), w);
  }

  /** The working variables after the first n rounds over schedule w. */
  function Rounds(v: Working, w: seq<bv32>, n: nat): Working
    requires |w| == 80 && n <= 80
  {
    if n == 0 then v else Round(Rounds(v, w, n - 1), n - 1, w[n - 1])
  }

  /** Rounds n - 1 down to 0 run backwards. */
  function UnRounds(r: Working, w: seq<bv32>, n: nat): Working
    requires |w| == 80 && n <= 80
    decreases n
  {
    if n == 0 then r else UnRounds(UnRound(r, n - 1, w[n - 1]), w, n - 1)
  }

  /** For a fixed schedule the rounds lose nothing: UnRounds recovers where they started. */
  lemma {:induction false} UnRoundsRounds(v: Working, w: seq<bv32>, n: nat)
    requires |w| == 80 && n <= 80
    ensures UnRounds(Rounds(v, w, n), w, n) == v
  {
    if n > 0 {
      UnRoundsRounds(v, w, n - 1);
      UnRoundRound(Rounds(v, w, n - 1), n - 1, w[n - 1]);
    }
  }

  /** Every outcome of the rounds is reached, from the variables UnRounds gives. */
  lemma {:induction false} RoundsUnRounds(r: Working, w: seq<bv32>, n: nat)
    requires |w| == 80 && n <= 80
    ensures Rounds(UnRounds(r, w, n), w, n) == r
    decreases n
  {
    if n > 0 {
      RoundsUnRounds(UnRound(r, n - 1, w[n - 1]), w, n - 1);
      RoundUnRound(r, n - 1, w[n - 1]);
    }
  }

  /** The hash update after a block: each hash word plus its working variable, modulo 2^32. */
  function AddHash(h: seq<bv32>, v: Working): (r: seq<bv32>)
    requires |h| == 5
    ensures |r| == 5
  {
    [Add32(h[0], v.a), Add32(h[1], v.b), Add32(h[2], v.c), Add32(h[3], v.d), Add32(h[4], v.e)]
  }

  /** The word-wise difference of two hash values, modulo 2^32. */
  function SubHash(r: seq<bv32>, h: seq<bv32>): (d: seq<bv32>)
    requires |r| == 5 && |h| == 5
    ensures |d| == 5
  {
    [Sub32(r[0], h[0]), Sub32(r[1], h[1]), Sub32(r[2], h[2]), Sub32(r[3], h[3]), Sub32(r[4], h[4])]
  }

  /** The hash update loses nothing: subtracting the old hash word by word gives the working variables back. */
  lemma AddHashLossless(h: seq<bv32>, v: Working)
    requires |h| == 5
    ensures SubHash(AddHash(h, v), h) == Words(v)
  {
    SubAddLeft32(h[0], v.a);
    SubAddLeft32(h[1], v.b);
    SubAddLeft32(h[2], v.c);
    SubAddLeft32(h[3], v.d);
    SubAddLeft32(h[4], v.e);
  }

  /** The hash after one block: the 80 rounds from the hash, then the word-wise sum with it. */
  function CompressBlock(h: seq<bv32>, block: Block): (r: seq<bv32>)
    requires |h| == 5
    ensures |r| == 5
  {
    AddHash(h, Rounds(Load(h), Schedule(block), 80))
  }

  /** The hash after the first n blocks, in order. */
  function HashPrefix(h: seq<bv32>, blocks: seq<Block>, n: nat): (r: seq<bv32>)
    requires |h| == 5 && n <= |blocks|
    ensures |r| == 5
  {
    if n == 0 then h else CompressBlock(HashPrefix(h, blocks, n - 1), blocks[n - 1])
  }

  /** The hash after all the blocks. */
  function HashBlocks(h: seq<bv32>, blocks: seq<Block>): (r: seq<bv32>)
    requires |h| == 5
    ensures |r| == 5
  {
    HashPrefix(h, blocks, |blocks|)
  }

  /** The digest of a message: the hash words after all blocks, big-endian. */
  function Digest(msg: seq<bv8>): (d: seq<bv8>)
    requires |msg| < MaxLength
    ensures |d| == 20
  {
    BytesOfWords32(HashBlocks(IV, MessageBlocks(msg)))
  }

  /**
   * The body of `compute` for one block, once the schedule is prepared: the
   * working variables a .. e start as the hash words and go through the 80
   * rounds; then each hash word is increased by its working variable.
   */
  method ProcessBlock(prev: seq<bv32>, oldSchedule: seq<bv32>, block: Block) returns (hash: seq<bv32>, schedule: seq<bv32>)
    requires |prev| == 5 && |oldSchedule| == 80
    ensures schedule == Schedule(block)
    ensures hash == CompressBlock(prev, block)
  {
    schedule := PrepareSchedule(oldSchedule, block);
    var a, b, c, d, e := prev[0], prev[1], prev[2], prev[3], prev[4];
    for t := 0 to 80
      invariant Working(a, b, c, d, e) == Rounds(Load(prev), schedule, t)
    {
      var temp := Add32(Add32(Add32(Add32(RotL5(a), F(t, b, c, d)), e), Kt(t)), schedule[t]);
      e := d;
      d := c;
      c := RotL30(b);
      b := a;
      a := temp;
    }
    hash := [Add32(prev[0], a), Add32(prev[1], b), Add32(prev[2], c), Add32(prev[3], d), Add32(prev[4], e)];
  }

  /**
   * The loop of `compute`: block i - 1 is processed for i from 1 to the
   * number of blocks, each time from the hash and schedule the previous
   * block left.
   */
  method CompressAll(prev: seq<bv32>, oldSchedule: seq<bv32>, blocks: seq<Block>) returns (hash: seq<bv32>, schedule: seq<bv32>)
    requires |prev| == 5 && |oldSchedule| == 80
    ensures |schedule| == 80
    ensures hash == HashBlocks(prev, blocks)
    ensures schedule == if blocks == [] then oldSchedule else Schedule(blocks[|blocks| - 1])
  {
    hash, schedule := prev, oldSchedule;
    for i := 1 to |blocks| + 1
      invariant |hash| == 5 && |schedule| == 80
      invariant hash == HashPrefix(prev, blocks, i - 1)
      invariant schedule == if i == 1 then oldSchedule else Schedule(blocks[i - 2])
    {
      hash, schedule := ProcessBlock(hash, schedule, blocks[i - 1]);
    }
  }

  /** The hash state: the hash words, the block list and the message schedule. */
  class Sha1 {
    var hash: seq<bv32>
    var state: seq<Block>
    var schedule: seq<bv32>

    predicate Valid()
      reads this
    {
      |hash| == 5 && |schedule| == 80
    }

    /** `new`: the initial hash value, the blocks of the message and a zero schedule. */
    constructor (msg: seq<bv8>)
      requires |msg| < MaxLength
      ensures Valid()
      ensures hash == IV && state == MessageBlocks(msg)
      ensures forall t :: 0 <= t < 80 ==> schedule[t] == 0
    {
      var blocks := Preprocess(msg);
      hash := IV;
      state := blocks;
      schedule := seq(80, _ => 0);
    }

    /**
     * `compute`: for every block, the schedule is prepared, the working
     * variables run the 80 rounds from the hash, and each hash word is
     * increased by its working variable. The block list is left as it is.
     */
    method Compute()
      requires Valid()
      modifies this
      ensures Valid()
      ensures hash == HashBlocks(old(hash), old(state))
      ensures state == old(state)
      ensures schedule == if state == [] then old(schedule) else Schedule(state[|state| - 1])
    {
      hash, schedule := CompressAll(hash, schedule, state);
    }

    /**
     * `result`: runs `compute` again from the current hash and returns the
     * five hash words as 20 big-endian bytes.
     */
    method Result() returns (digest: seq<bv8>)
      requires Valid()
      modifies this
      ensures Valid() && state == old(state)
      ensures hash == HashBlocks(old(hash), state)
      ensures schedule == if state == [] then old(schedule) else Schedule(state[|state| - 1])
      ensures digest == BytesOfWords32(hash) && |digest| == 20
    {
      Compute();
      digest := BytesOfWords32(hash);
    }
  }

  /** A fresh object's `result` is the digest of its message. */
  method Hash(msg: seq<bv8>) returns (digest: seq<bv8>)
    requires |msg| < MaxLength
    ensures digest == Digest(msg)
    ensures forall i :: 0 <= i < 5 ==> digest[4 * i..4 * i + 4] == BytesOf32(HashBlocks(IV, MessageBlocks(msg))[i])
  {
    var s := new Sha1(msg);
    digest := s.Result();
    forall i | 0 <= i < 5 ensures digest[4 * i..4 * i + 4] == BytesOf32(HashBlocks(IV, MessageBlocks(msg))[i]) {
      BytesOfWords32At(HashBlocks(IV, MessageBlocks(msg)), i);
    }
  }
}
