/**
 * The permutations, the padding rule and the sponge construction of
 * `src/sha/sha3.rs`, and the `Sha3` object whose `keccak` method drives them.
 *
 * The source runs `rnd` for i_r in 12 + 2l - n_r .. 12 + 2l - 1, that is
 * n_r - 1 times, and `rnd` applies theta alone; the model follows it.
 */
module KeccakSponge {
  import opened KeccakState
  import opened KeccakSteps
  import opened Arith

  // keccak_p and keccak_f

  /** n rounds of the source's `rnd`, that is theta applied n times. */
  function ThetaIter(s: State, n: nat): (r: State)
    requires WellFormed(s)
    ensures WellFormed(r)
  {
    if n == 0 then s else Theta(ThetaIter(s, n - 1))
  }

  /** The number of rounds the index range of keccak_p holds: n_r - 1, or none. */
  function RoundCount(nr: int): (n: nat)
    ensures nr >= 1 ==> n == nr - 1
    ensures nr < 1 ==> n == 0
  {
    if nr > 1 then nr - 1 else 0
  }

  /** `keccak_p` on a 1600-bit string, as a function. */
  function KeccakP(b: seq<bool>, nr: int): (r: seq<bool>)
    requires |b| == B
    ensures |r| == B
  {
    BitsOf(ThetaIter(StateOf(b), RoundCount(nr)))
  }

  /** With one round or fewer the index range is empty and the string comes back unchanged. */
  lemma KeccakPNoRounds(b: seq<bool>, nr: int)
    requires |b| == B && nr <= 1
    ensures KeccakP(b, nr) == b
  {
    BitsOfStateOf(b);
  }

  /** One more round number is one more theta on the decoded output. */
  lemma KeccakPStep(b: seq<bool>, nr: int)
    requires |b| == B && nr >= 1
    ensures KeccakP(b, nr + 1) == BitsOf(Theta(StateOf(KeccakP(b, nr))))
  {
    StateOfBitsOf(ThetaIter(StateOf(b), RoundCount(nr)));
  }

  /**
   * `keccak_p`: decode, apply `rnd` for every i_r of the range
   * 12 + 2l - n_r .. 12 + 2l - 1, encode.
   */
  method RunKeccakP(bstr: seq<bool>, nr: int) returns (r: seq<bool>)
    requires |bstr| == B
    ensures r == KeccakP(bstr, nr)
    ensures |r| == B
  {
    var a := BstrToState(bstr);
    var lo, hi := 12 + 2 * L - nr, 12 + 2 * L - 1;
    var ir := lo;
    while ir < hi
      invariant WellFormed(a)
      invariant lo <= ir && (lo < hi ==> ir <= hi) && (hi <= lo ==> ir == lo)
      invariant a == ThetaIter(StateOf(bstr), ir - lo)
    {
      a := ApplyRound(a, ir);
      ir := ir + 1;
    }
    assert ir - lo == RoundCount(nr);
    r := StateToBstr(a);
  }

  /** `keccak_f`: keccak_p with n_r = 12 + 2l, which is 24 for 1600 bits. */
  function KeccakF(b: seq<bool>): (r: seq<bool>)
    requires |b| == B
    ensures |r| == B
    ensures r == BitsOf(ThetaIter(StateOf(b), 23))
  {
    KeccakP(b, 12 + 2 * L)
  }

  // pad

  /**
   * `pad(x, m)`: a one, j = (-m - 2) mod x zeros (Euclidean remainder), a
   * one; the result brings m bits up to a multiple of x.
   */
  function Pad(x: int, m: int): (r: seq<bool>)
    requires x > 0
    ensures 2 <= |r| <= x + 1
    ensures |r| - 2 == (-m - 2) % x
    ensures r[0] && r[|r| - 1]
    ensures forall i :: 0 < i < |r| - 1 ==> !r[i]
  {
    var j := (-m - 2) % x;
    [true] + seq(j, _ => false) + [true]
  }

  /** The padded length is a multiple of x, and the smallest one above m + 1. */
  lemma PadCompletesBlock(x: int, m: int)
    requires x > 0
    ensures (m + |Pad(x, m)|) % x == 0
    ensures m + |Pad(x, m)| - x < m + 2
  {
    var j := (-m - 2) % x;
    var q := (-m - 2) / x;
    assert -m - 2 == q * x + j;
    assert m + j + 2 == (-q) * x;
    ModMultiple(-q, x);
  }

  // absorbing

  /** `chunks_exact(rate)`: the |p| / rate full blocks of p, the remainder dropped. */
  function Chunks(p: seq<bool>, rate: nat): (r: seq<seq<bool>>)
    requires rate > 0
    ensures |r| == |p| / rate
    ensures forall i :: 0 <= i < |r| ==> |r[i]| == rate
  {
    seq(|p| / rate, i requires 0 <= i < |p| / rate => Block(p, rate, i))
  }

  /** Bits i * rate .. (i + 1) * rate of p. */
  function Block(p: seq<bool>, rate: nat, i: nat): (r: seq<bool>)
    requires rate > 0 && i < |p| / rate
    ensures |r| == rate
  {
    BlockBound(|p|, rate, i);
    p[i * rate..i * rate + rate]
  }

  /** Block i of Chunks holds bits i * rate .. (i + 1) * rate of p. */
  lemma ChunksAt(p: seq<bool>, rate: nat, i: nat, k: nat)
    requires rate > 0 && i < |p| / rate && k < rate
    ensures i * rate + k < |p|
    ensures Chunks(p, rate)[i][k] == p[i * rate + k]
  {
    BlockBound(|p|, rate, i);
  }

  /** `zip` then `map(a ^ b)` over two strings of the same length. */
  function XorBits(a: seq<bool>, b: seq<bool>): (r: seq<bool>)
    requires |a| == |b|
    ensures |r| == |a|
    ensures forall i :: 0 <= i < |r| ==> r[i] == (a[i] != b[i])
  {
    seq(|a|, i requires 0 <= i < |a| => a[i] != b[i])
  }

  function Zeros(n: nat): (r: seq<bool>)
    ensures |r| == n && forall i :: 0 <= i < n ==> !r[i]
  {
    seq(n, _ => false)
  }

  /** f maps every 1600-bit string to a 1600-bit string. */
  ghost predicate Permutes(f: seq<bool> --> seq<bool>) {
    forall s :: |s| == B ==> f.requires(s) && |f(s)| == B
  }

  /**
   * The state after absorbing the blocks in order, from 1600 zero bits: each
   * block is extended with B - rate zeros, XORed in, and f applied.
   */
  ghost function Absorb(f: seq<bool> --> seq<bool>, blocks: seq<seq<bool>>, rate: nat): (s: seq<bool>)
    requires Permutes(f) && rate <= B
    requires forall i :: 0 <= i < |blocks| ==> |blocks[i]| == rate
    ensures |s| == B
  {
    if blocks == [] then Zeros(B)
    else
      var prev := Absorb(f, blocks[..|blocks| - 1], rate);
      f(XorBits(prev, blocks[|blocks| - 1] + Zeros(B - rate)))
  }

  /** Absorbing nothing leaves the zero state; absorbing one more block is one more call of f. */
  lemma AbsorbSnoc(f: seq<bool> --> seq<bool>, blocks: seq<seq<bool>>, block: seq<bool>, rate: nat)
    requires Permutes(f) && rate <= B && |block| == rate
    requires forall i :: 0 <= i < |blocks| ==> |blocks[i]| == rate
    ensures Absorb(f, [], rate) == Zeros(B)
    ensures Absorb(f, blocks + [block], rate) == f(XorBits(Absorb(f, blocks, rate), block + Zeros(B - rate)))
  {
    assert (blocks + [block])[..|blocks|] == blocks;
  }

  // squeezing

  /** `truncate(rate)`: the first rate bits, or all of them when there are fewer. */
  function Truncate(s: seq<bool>, rate: nat): (r: seq<bool>)
    ensures |r| == if |s| <= rate then |s| else rate
    ensures r == s[..|r|]
  {
    if |s| <= rate then s else s[..rate]
  }

  /** z, extended by copies of t until it reaches d bits, cut to d bits. */
  ghost function SqueezeOut(z: seq<bool>, t: seq<bool>, d: nat): (r: seq<bool>)
    requires |t| > 0 || d <= |z|
    ensures |r| == d
    decreases d - |z|
  {
    if d <= |z| then z[..d] else SqueezeOut(z + t, t, d)
  }

  /** The squeezed output starts with z and continues with t repeated. */
  lemma {:induction false} SqueezeOutAt(z: seq<bool>, t: seq<bool>, d: nat, k: nat)
    requires |t| > 0 || d <= |z|
    requires k < d
    ensures k < |z| ==> SqueezeOut(z, t, d)[k] == z[k]
    ensures |z| <= k ==> |t| > 0 && SqueezeOut(z, t, d)[k] == t[(k - |z|) % |t|]
    decreases d - |z|
  {
    if d > |z| {
      SqueezeOutAt(z + t, t, d, k);
      if |z| + |t| <= k {
        ModShift(k - |z| - |t|, 1, |t|);
      } else if |z| <= k {
        DivModUnique(k - |z|, |t|, 0, k - |z|);
      }
    }
  }

  /**
   * What `sponge` returns: the message with the padding appended is cut into
   * rate-bit blocks and absorbed; the first rate bits of the state are
   * output, and while fewer than d bits have been produced the output is
   * extended by the first (at most rate) bits of f applied to the empty
   * string, because the loop has moved the whole of s into z.
   */
  ghost function Sponge(f: seq<bool> --> seq<bool>, pad: (int, int) --> seq<bool>, rate: nat, bstr: seq<bool>, d: nat): (z: seq<bool>)
    requires 0 < rate <= B
    requires pad.requires(rate, |bstr|)
    requires Permutes(f)
    requires d > rate ==> f.requires([]) && |f([])| > 0
    ensures |z| == d
  {
    var p := bstr + pad(rate, |bstr|);
    var s := Absorb(f, Chunks(p, rate), rate);
    var t := if d > rate then Truncate(f([]), rate) else [];
    SqueezeOut(s[..rate], t, d)
  }

  /** When d <= rate the output is the first d bits of the absorbed state. */
  lemma SpongeShortOutput(f: seq<bool> --> seq<bool>, pad: (int, int) --> seq<bool>, rate: nat, bstr: seq<bool>, d: nat)
    requires 0 < rate <= B
    requires pad.requires(rate, |bstr|)
    requires Permutes(f)
    requires d <= rate
    ensures Sponge(f, pad, rate, bstr, d) == Absorb(f, Chunks(bstr + pad(rate, |bstr|), rate), rate)[..d]
  {
  }

  /**
   * `sponge`: appends the padding, absorbs block by block into 1600 zero
   * bits, then repeatedly truncates s to rate bits, moves it onto z and, if
   * z is still shorter than d, sets s to f(s) of the now empty s.
   */
  method RunSponge(f: seq<bool> --> seq<bool>, pad: (int, int) --> seq<bool>, rate: nat, bstr: seq<bool>, d: nat)
    returns (z: seq<bool>)
    requires 0 < rate <= B
    requires pad.requires(rate, |bstr|)
    requires Permutes(f)
    requires d > rate ==> f.requires([]) && |f([])| > 0
    ensures z == Sponge(f, pad, rate, bstr, d)
    ensures |z| == d
  {
    var p := bstr + pad(rate, |bstr|);
    var blocks := Chunks(p, rate);
    var s := AbsorbBlocks(f, blocks, rate);
    z := Squeeze(f, rate, s, d);
  }

  /** The absorbing loop of `sponge`: XOR each block, padded with zeros, into s and apply f. */
  method AbsorbBlocks(f: seq<bool> --> seq<bool>, blocks: seq<seq<bool>>, rate: nat) returns (s: seq<bool>)
    requires Permutes(f) && 0 < rate <= B
    requires forall i :: 0 <= i < |blocks| ==> |blocks[i]| == rate
    ensures s == Absorb(f, blocks, rate)
  {
    var capacity := B - rate;
    s := Zeros(B);
    for i := 0 to |blocks|
      invariant s == Absorb(f, blocks[..i], rate)
    {
      var q := blocks[i] + Zeros(capacity);
      AbsorbSnoc(f, blocks[..i], blocks[i], rate);
      assert blocks[..i + 1] == blocks[..i] + [blocks[i]];
      s := f(XorBits(s, q));
    }
    assert blocks[..|blocks|] == blocks;
  }

  /** The squeezing loop of `sponge`, from the absorbed state s. */
  method Squeeze(f: seq<bool> --> seq<bool>, rate: nat, s0: seq<bool>, d: nat) returns (z: seq<bool>)
    requires 0 < rate <= B && |s0| == B
    requires d > rate ==> f.requires([]) && |f([])| > 0
    ensures z == SqueezeOut(s0[..rate], if d > rate then Truncate(f([]), rate) else [], d)
  {
    ghost var t := if d > rate then Truncate(f([]), rate) else [];
    ghost var goal := SqueezeOut(s0[..rate], t, d);
    var s := s0;
    z := [];
    assert z + Truncate(s, rate) == s0[..rate];
    while true
      invariant z == [] ==> s == s0
      invariant z != [] ==> d > |z| >= rate && s == f([])
      invariant SqueezeOut(z + Truncate(s, rate), t, d) == goal
      decreases d + 1 - |z|
    {
      s := Truncate(s, rate);
      z := z + s;
      s := [];
      if d <= |z| {
        z := z[..d];
        return;
      }
      s := f(s);
    }
  }

  // The Sha3 object

  /** `Sha3`: the message bits and the state decoded from them. */
  class Sha3 {
    var bstr: seq<bool>
    var state: State

    /** `Sha3::new`: keeps the bits and decodes them into a state. */
    constructor (bstr0: seq<bool>)
      requires |bstr0| / 25 <= W
      ensures bstr == bstr0 && state == StateOf(bstr0)
    {
      var s := BstrToState(bstr0);
      bstr := bstr0;
      state := s;
    }

    /**
     * `keccak(capacity)`: appends the SHA-3 domain bits 0, 1 and replaces the
     * bits with the sponge over keccak_f and pad, rate 1600 - capacity and
     * output length capacity / 2. The state field is not updated.
     */
    method Keccak(capacity: nat)
      requires capacity < B && capacity / 2 <= B - capacity
      modifies this
      ensures bstr == Sha3Digest(old(bstr), capacity)
      ensures state == old(state)
    {
      bstr := bstr + [false, true];
      bstr := RunSponge(KeccakF, Pad, B - capacity, bstr, capacity / 2);
    }
  }

  /** The digest `keccak` computes for a message of bits m. */
  ghost function Sha3Digest(m: seq<bool>, capacity: nat): (z: seq<bool>)
    requires capacity < B && capacity / 2 <= B - capacity
    ensures |z| == capacity / 2
  {
    Sponge(KeccakF, Pad, B - capacity, m + [false, true], capacity / 2)
  }

  /**
   * The digest is the first capacity / 2 bits of the state after absorbing
   * the message, the suffix 01 and the padding in blocks of 1600 - capacity bits.
   */
  lemma Sha3DigestIsPrefix(m: seq<bool>, capacity: nat)
    requires capacity < B && capacity / 2 <= B - capacity
    ensures var p := m + [false, true] + Pad(B - capacity, |m| + 2);
      && |p| % (B - capacity) == 0
      && Sha3Digest(m, capacity) == Absorb(KeccakF, Chunks(p, B - capacity), B - capacity)[..capacity / 2]
  {
    PadCompletesBlock(B - capacity, |m| + 2);
    SpongeShortOutput(KeccakF, Pad, B - capacity, m + [false, true], capacity / 2);
  }
}
