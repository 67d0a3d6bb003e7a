/**
 * Byte and word plumbing shared by `src/sha/sha1.rs`, `src/sha/sha256.rs`
 * and `src/sha/sha512.rs`: big-endian conversions and the message padding
 * buffer that the three `preprocess` functions build in the same way.
 */
module ShaBytes {
  import opened Arith

  // Wrapping arithmetic

  /** `u32::wrapping_add`: the sum modulo 2^32. */
  function Add32(a: bv32, b: bv32): bv32 {
    a + b
  }

  /** `u64::wrapping_add`: the sum modulo 2^64. */
  function Add64(a: bv64, b: bv64): bv64 {
    a + b
  }

  /** The difference modulo 2^32, the inverse of Add32. */
  function Sub32(a: bv32, b: bv32): bv32 {
    a - b
  }

  /** The difference modulo 2^64, the inverse of Add64. */
  function Sub64(a: bv64, b: bv64): bv64 {
    a - b
  }

  /** Subtracting the first summand of a sum leaves the second. */
  lemma SubAddLeft32(a: bv32, b: bv32)
    ensures Sub32(Add32(a, b), a) == b
  {
    assert Add32(a, b) == a + b;
    assert Sub32(a + b, a) == (a + b) - a;
  }

  /** Subtracting the first summand of a sum leaves the second. */
  lemma SubAddLeft64(a: bv64, b: bv64)
    ensures Sub64(Add64(a, b), a) == b
  {
    assert Add64(a, b) == a + b;
    assert Sub64(a + b, a) == (a + b) - a;
  }

  /** Adding b on the left to a - b gives a. */
  lemma AddSubLeft32(a: bv32, b: bv32)
    ensures Add32(b, Sub32(a, b)) == a
  {
    assert Sub32(a, b) == a - b;
    assert Add32(b, a - b) == b + (a - b);
  }

  /** Adding b to a - b gives a. */
  lemma AddSub32(a: bv32, b: bv32)
    ensures Add32(Sub32(a, b), b) == a
  {
    assert Sub32(a, b) == a - b;
    assert Add32(a - b, b) == (a - b) + b;
  }

  /** Subtracting b from a + b gives a. */
  lemma SubAdd32(a: bv32, b: bv32)
    ensures Sub32(Add32(a, b), b) == a
  {
    assert Add32(a, b) == a + b;
    assert Sub32(a + b, b) == (a + b) - b;
  }

  /** Adding b to a - b gives a. */
  lemma AddSub64(a: bv64, b: bv64)
    ensures Add64(Sub64(a, b), b) == a
  {
    assert Sub64(a, b) == a - b;
    assert Add64(a - b, b) == (a - b) + b;
  }

  /** Subtracting b from a + b gives a. */
  lemma SubAdd64(a: bv64, b: bv64)
    ensures Sub64(Add64(a, b), b) == a
  {
    assert Add64(a, b) == a + b;
    assert Sub64(a + b, b) == (a + b) - b;
  }

  // Big-endian words

  /** `u32::from_be_bytes`. */
  function Word32Of(b: seq<bv8>): (w: bv32)
    requires |b| == 4
  {
    ((b[0] as bv32) << 24) | ((b[1] as bv32) << 16) | ((b[2] as bv32) << 8) | (b[3] as bv32)
  }

  /** `u32::to_be_bytes`. */
  function BytesOf32(w: bv32): (b: seq<bv8>)
    ensures |b| == 4
  {
    [(w >> 24) as bv8, ((w >> 16) & 0xFF) as bv8, ((w >> 8) & 0xFF) as bv8, (w & 0xFF) as bv8]
  }

  /** `u64::from_be_bytes`: the high half from the first four bytes, the low half from the rest. */
  function Word64Of(b: seq<bv8>): (w: bv64)
    requires |b| == 8
  {
    ((Word32Of(b[..4]) as bv64) << 32) | (Word32Of(b[4..]) as bv64)
  }

  /** `u64::to_be_bytes`: the bytes of the high half, then those of the low half. */
  function BytesOf64(w: bv64): (b: seq<bv8>)
    ensures |b| == 8
  {
    BytesOf32((w >> 32) as bv32) + BytesOf32((w & 0xFFFF_FFFF) as bv32)
  }

  /** Reading back the bytes of a 32-bit word gives the word. */
  lemma Word32OfBytes(w: bv32)
    ensures Word32Of(BytesOf32(w)) == w
  {
  }

  /** Writing out the word read from four bytes gives the bytes. */
  lemma BytesOfWord32(b: seq<bv8>)
    requires |b| == 4
    ensures BytesOf32(Word32Of(b)) == b
  {
    var c := BytesOf32(Word32Of(b));
    assert c[0] == b[0] && c[1] == b[1] && c[2] == b[2] && c[3] == b[3];
  }

  lemma Word64OfBytes(w: bv64)
    ensures Word64Of(BytesOf64(w)) == w
  {
    var hi, lo := (w >> 32) as bv32, (w & 0xFFFF_FFFF) as bv32;
    var b := BytesOf64(w);
    Word32OfBytes(hi);
    Word32OfBytes(lo);
    assert b[..4] == BytesOf32(hi) && b[4..] == BytesOf32(lo);
    SplitJoin64(w);
  }

  lemma SplitJoin64(w: bv64)
    ensures (((w >> 32) as bv32) as bv64 << 32) | (((w & 0xFFFF_FFFF) as bv32) as bv64) == w
  {
  }

  lemma JoinSplit64(hi: bv32, lo: bv32)
    ensures ((((hi as bv64) << 32) | (lo as bv64)) >> 32) as bv32 == hi
    ensures ((((hi as bv64) << 32) | (lo as bv64)) & 0xFFFF_FFFF) as bv32 == lo
  {
  }

  lemma BytesOfWord64(b: seq<bv8>)
    requires |b| == 8
    ensures BytesOf64(Word64Of(b)) == b
  {
    var hi, lo := Word32Of(b[..4]), Word32Of(b[4..]);
    JoinSplit64(hi, lo);
    BytesOfWord32(b[..4]);
    BytesOfWord32(b[4..]);
    assert b == b[..4] + b[4..];
  }

  /** The words of a byte string, four bytes each, as `array_chunks().map(u32::from_be_bytes)`. */
  function Words32(bytes: seq<bv8>): (ws: seq<bv32>)
    requires |bytes| % 4 == 0
    ensures |ws| == |bytes| / 4
    ensures forall k :: 0 <= k < |ws| ==> ws[k] == Word32Of(bytes[4 * k..4 * k + 4])
  {
    seq(|bytes| / 4, k requires 0 <= k < |bytes| / 4 => Word32Of(bytes[4 * k..4 * k + 4]))
  }

  /** The words of a byte string, eight bytes each, as `array_chunks().map(u64::from_be_bytes)`. */
  function Words64(bytes: seq<bv8>): (ws: seq<bv64>)
    requires |bytes| % 8 == 0
    ensures |ws| == |bytes| / 8
    ensures forall k :: 0 <= k < |ws| ==> ws[k] == Word64Of(bytes[8 * k..8 * k + 8])
  {
    seq(|bytes| / 8, k requires 0 <= k < |bytes| / 8 => Word64Of(bytes[8 * k..8 * k + 8]))
  }

  /** The bytes of words, each big-endian, as `map(to_be_bytes).flatten()`. */
  function BytesOfWords32(ws: seq<bv32>): (b: seq<bv8>)
    ensures |b| == 4 * |ws|
  {
    if ws == [] then [] else BytesOf32(ws[0]) + BytesOfWords32(ws[1..])
  }

  function BytesOfWords64(ws: seq<bv64>): (b: seq<bv8>)
    ensures |b| == 8 * |ws|
  {
    if ws == [] then [] else BytesOf64(ws[0]) + BytesOfWords64(ws[1..])
  }

  /** Bytes 4i .. 4i + 3 of the flattened words are word i, big-endian. */
  lemma {:induction false} BytesOfWords32At(ws: seq<bv32>, i: nat)
    requires i < |ws|
    ensures BytesOfWords32(ws)[4 * i..4 * i + 4] == BytesOf32(ws[i])
  {
    if i > 0 {
      BytesOfWords32At(ws[1..], i - 1);
      assert BytesOfWords32(ws)[4 * i..4 * i + 4] == BytesOfWords32(ws[1..])[4 * (i - 1)..4 * (i - 1) + 4];
    }
  }

  /** Bytes 8i .. 8i + 7 of the flattened words are word i, big-endian. */
  lemma {:induction false} BytesOfWords64At(ws: seq<bv64>, i: nat)
    requires i < |ws|
    ensures BytesOfWords64(ws)[8 * i..8 * i + 8] == BytesOf64(ws[i])
  {
    if i > 0 {
      BytesOfWords64At(ws[1..], i - 1);
      assert BytesOfWords64(ws)[8 * i..8 * i + 8] == BytesOfWords64(ws[1..])[8 * (i - 1)..8 * (i - 1) + 8];
    }
  }

  /** Reading the flattened bytes back as words gives the words. */
  lemma Words32OfBytes(ws: seq<bv32>)
    ensures Words32(BytesOfWords32(ws)) == ws
  {
    var r := Words32(BytesOfWords32(ws));
    forall k | 0 <= k < |ws| ensures r[k] == ws[k] {
      BytesOfWords32At(ws, k);
      Word32OfBytes(ws[k]);
    }
  }

  lemma Words64OfBytes(ws: seq<bv64>)
    ensures Words64(BytesOfWords64(ws)) == ws
  {
    var r := Words64(BytesOfWords64(ws));
    forall k | 0 <= k < |ws| ensures r[k] == ws[k] {
      BytesOfWords64At(ws, k);
      Word64OfBytes(ws[k]);
    }
  }

  /** A word list cut into blocks of 16, as the second `array_chunks()`. */
  function Blocks<T>(ws: seq<T>): (bs: seq<seq<T>>)
    requires |ws| % 16 == 0
    ensures |bs| == |ws| / 16
    ensures forall i :: 0 <= i < |bs| ==> |bs[i]| == 16 && bs[i] == ws[16 * i..16 * i + 16]
  {
    seq(|ws| / 16, i requires 0 <= i < |ws| / 16 => ws[16 * i..16 * i + 16])
  }

  /** Padded bytes read as big-endian 32-bit words, sixteen to a block (SHA-1, SHA-256). */
  function BlocksOf32(p: seq<bv8>): (blocks: seq<seq<bv32>>)
    requires |p| % 64 == 0
    ensures |blocks| == |p| / 64
    ensures forall i :: 0 <= i < |blocks| ==> |blocks[i]| == 16
  {
    WordsPerBlock(|p|, 4);
    Blocks(Words32(p))
  }

  /** Word k of block i is bytes 64i + 4k .. 64i + 4k + 3, big-endian. */
  lemma BlocksOf32At(p: seq<bv8>, i: nat, k: nat)
    requires |p| % 64 == 0 && i < |p| / 64 && k < 16
    ensures 64 * i + 4 * k + 4 <= |p|
    ensures BlocksOf32(p)[i][k] == Word32Of(p[64 * i + 4 * k..64 * i + 4 * k + 4])
  {
    WordsPerBlock(|p|, 4);
    var ws := Words32(p);
    assert BlocksOf32(p)[i] == ws[16 * i..16 * i + 16];
    assert BlocksOf32(p)[i][k] == ws[16 * i + k];
  }

  /** Padded bytes read as big-endian 64-bit words, sixteen to a block (SHA-512). */
  function BlocksOf64(p: seq<bv8>): (blocks: seq<seq<bv64>>)
    requires |p| % 128 == 0
    ensures |blocks| == |p| / 128
    ensures forall i :: 0 <= i < |blocks| ==> |blocks[i]| == 16
  {
    WordsPerBlock(|p|, 8);
    Blocks(Words64(p))
  }

  /** Word k of block i is bytes 128i + 8k .. 128i + 8k + 7, big-endian. */
  lemma BlocksOf64At(p: seq<bv8>, i: nat, k: nat)
    requires |p| % 128 == 0 && i < |p| / 128 && k < 16
    ensures 128 * i + 8 * k + 8 <= |p|
    ensures BlocksOf64(p)[i][k] == Word64Of(p[128 * i + 8 * k..128 * i + 8 * k + 8])
  {
    WordsPerBlock(|p|, 8);
    var ws := Words64(p);
    assert BlocksOf64(p)[i] == ws[16 * i..16 * i + 16];
    assert BlocksOf64(p)[i][k] == ws[16 * i + k];
  }

  // Padding

  /**
   * The two buffer layouts: 64-byte blocks whose last 8 bytes must hold the
   * length (SHA-1, SHA-256), and 128-byte blocks whose last 16 bytes are
   * reserved for it (SHA-512).
   */
  predicate Layout(bs: nat, field: nat) {
    (bs == 64 && field == 8) || (bs == 128 && field == 16)
  }

  /** Message lengths for which `len as u64 * 8` does not overflow. */
  const MaxLength: nat := 0x2000_0000_0000_0000

  /**
   * The buffer length `preprocess` allocates: n + bs - n % bs, plus one more
   * block when n % bs >= bs - field.
   */
  function PaddedLength(n: nat, bs: nat, field: nat): (total: nat)
    requires Layout(bs, field)
  {
    n + bs - n % bs + (if n % bs >= bs - field then bs else 0)
  }

  /**
   * The buffer length is the smallest multiple of bs that holds the message,
   * the 0x80 byte and the length field.
   */
  lemma PaddedLengthSmallest(n: nat, bs: nat, field: nat)
    requires Layout(bs, field)
    ensures PaddedLength(n, bs, field) % bs == 0
    ensures PaddedLength(n, bs, field) >= n + 1 + field
    ensures PaddedLength(n, bs, field) - bs < n + 1 + field
  {
    var q, r := n / bs, n % bs;
    assert n == q * bs + r;
    var k := if r >= bs - field then q + 2 else q + 1;
    assert PaddedLength(n, bs, field) == k * bs;
    ModMultiple(k, bs);
  }

  /** The low k bits of x, most significant first: `x as u64` when k is 64. */
  function LowBits(x: nat, k: nat): bv64
    requires k <= 64
  {
    if k == 0 then 0 else (LowBits(x / 2, k - 1) << 1) | (if x % 2 == 1 then 1 else 0)
  }

  /** 8n as a big-endian `u64`. */
  function LengthField(n: nat): (b: seq<bv8>)
    requires n < MaxLength
    ensures |b| == 8
  {
    BytesOf64(LowBits(n * 8, 64))
  }

  /**
   * The padded message: the message, 0x80, zeros, and the last 8 bytes 8n
   * big-endian.
   */
  function Padded(msg: seq<bv8>, bs: nat, field: nat): (p: seq<bv8>)
    requires Layout(bs, field) && |msg| < MaxLength
    ensures |p| == PaddedLength(|msg|, bs, field) && |p| % bs == 0
    ensures |msg| + 1 + field <= |p|
    ensures p[..|msg|] == msg
    ensures p[|msg|] == 0x80
    ensures p[|p| - 8..] == LengthField(|msg|)
    ensures forall i :: |msg| < i < |p| - 8 ==> p[i] == 0
  {
    PaddedLengthSmallest(|msg|, bs, field);
    var n, total := |msg|, PaddedLength(|msg|, bs, field);
    var field := LengthField(n);
    seq(total, i requires 0 <= i < total =>
      if i < n then msg[i] else if i == n then 0x80 else if i >= total - 8 then field[i - (total - 8)] else 0)
  }

  /** A buffer with the layout of Padded is Padded. */
  lemma PaddedUnique(msg: seq<bv8>, bs: nat, field: nat, r: seq<bv8>)
    requires Layout(bs, field) && |msg| < MaxLength
    requires |r| == PaddedLength(|msg|, bs, field)
    requires r[..|msg|] == msg && r[|msg|] == 0x80
    requires r[|r| - 8..] == LengthField(|msg|)
    requires forall i :: |msg| < i < |r| - 8 ==> r[i] == 0
    ensures r == Padded(msg, bs, field)
  {
    var p := Padded(msg, bs, field);
    forall i | 0 <= i < |r| ensures r[i] == p[i] {
      if i < |msg| {
        assert r[..|msg|][i] == p[..|msg|][i];
      } else if i >= |r| - 8 {
        assert r[|r| - 8..][i - (|r| - 8)] == p[|p| - 8..][i - (|r| - 8)];
      }
    }
  }

  /** The allocation `preprocess` makes, one whole block more when the length does not fit. */
  lemma BufferLength(n: nat, bs: nat, field: nat)
    requires Layout(bs, field)
    ensures var extra := if n % bs >= bs - field then 1 else 0;
      n + bs - n % bs + bs * extra == PaddedLength(n, bs, field) >= n + 1 + field
  {
    PaddedLengthSmallest(n, bs, field);
  }

  /**
   * The buffer work of `preprocess`: a zero buffer of the allocated length,
   * the message copied in, 0x80 after it, and 8n big-endian in the last 8
   * bytes.
   */
  method PadMessage(msg: seq<bv8>, bs: nat, field: nat) returns (res: seq<bv8>)
    requires Layout(bs, field) && |msg| < MaxLength
    ensures res == Padded(msg, bs, field)
  {
    var n := |msg|;
    var len := n + bs - n % bs;
    var extra := if n % bs >= bs - field then 1 else 0;
    BufferLength(n, bs, field);
    var buf := new bv8[len + bs * extra](_ => 0);
    var l := buf.Length;
    forall i | 0 <= i < n {
      buf[i] := msg[i];
    }
    buf[n] := 0x80;
    var bytes := LengthField(n);
    forall k | 0 <= k < 8 {
      buf[l - 8 + k] := bytes[k];
    }
    res := buf[..];
    assert res[..n] == msg by {
      assert forall i :: 0 <= i < n ==> res[i] == msg[i];
    }
    assert res[l - 8..] == bytes by {
      assert forall k :: 0 <= k < 8 ==> res[l - 8 + k] == bytes[k];
    }
    PaddedUnique(msg, bs, field, res);
  }
}
