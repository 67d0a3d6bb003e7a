/**
 * The Keccak-f[1600] state of `src/sha/sha3.rs`: a 5 x 5 x w cube of bits
 * indexed `state[x][y][z]`, its named cross-sections, and the codec between
 * the cube and a flat bit string.
 */
module KeccakState {
  import opened Arith

  /** Lane width. The zero-state constant of the source has 64-bit lanes. */
  const W: nat := 64
  /** log2 of the lane width. */
  const L: nat := 6
  /** Width of the permutation in bits: 25 lanes of W bits. */
  const B: nat := 1600

  type Lane = seq<bool>

  /** `state[x][y][z]`, x and y in [0, 5), z in [0, W). */
  type State = seq<seq<Lane>>

  predicate WellFormed(s: State) {
    && |s| == 5
    && (forall x :: 0 <= x < 5 ==> |s[x]| == 5)
    && (forall x, y :: 0 <= x < 5 && 0 <= y < 5 ==> |s[x][y]| == W)
  }

  function ZeroLane(): (r: Lane)
    ensures |r| == W && forall z :: 0 <= z < W ==> !r[z]
  {
    seq(W, _ => false)
  }

  /** The all-zero state that every step mapping starts from. */
  function Zero(): (s: State)
    ensures WellFormed(s)
    ensures forall x, y :: 0 <= x < 5 && 0 <= y < 5 ==> s[x][y] == ZeroLane()
  {
    seq(5, _ => seq(5, _ => ZeroLane()))
  }

  // Cross-sections of the state.

  function Row(s: State, y: int, z: int): seq<bool>
    requires WellFormed(s) && 0 <= y < 5 && 0 <= z < W
  {
    seq(5, x requires 0 <= x < 5 => s[x][y][z])
  }

  function Column(s: State, x: int, z: int): seq<bool>
    requires WellFormed(s) && 0 <= x < 5 && 0 <= z < W
  {
    seq(5, y requires 0 <= y < 5 => s[x][y][z])
  }

  function GetLane(s: State, x: int, y: int): Lane
    requires WellFormed(s) && 0 <= x < 5 && 0 <= y < 5
  {
    s[x][y]
  }

  function Plane(s: State, y: int): seq<Lane>
    requires WellFormed(s) && 0 <= y < 5
  {
    seq(5, x requires 0 <= x < 5 => s[x][y])
  }

  function Slice(s: State, z: int): seq<seq<bool>>
    requires WellFormed(s) && 0 <= z < W
  {
    seq(5, x requires 0 <= x < 5 => seq(5, y requires 0 <= y < 5 => s[x][y][z]))
  }

  function Sheet(s: State, x: int): seq<Lane>
    requires WellFormed(s) && 0 <= x < 5
  {
    s[x]
  }

  /** All six views read the same bit (x, y, z) of the cube. */
  lemma CrossSectionsAgree(s: State, x: int, y: int, z: int)
    requires WellFormed(s) && 0 <= x < 5 && 0 <= y < 5 && 0 <= z < W
    ensures |Row(s, y, z)| == |Column(s, x, z)| == |Plane(s, y)| == |Sheet(s, x)| == 5
    ensures Row(s, y, z)[x] == s[x][y][z]
    ensures Column(s, x, z)[y] == s[x][y][z]
    ensures GetLane(s, x, y)[z] == s[x][y][z]
    ensures Plane(s, y)[x] == GetLane(s, x, y)
    ensures Slice(s, z)[x][y] == s[x][y][z]
    ensures Sheet(s, x)[y] == GetLane(s, x, y)
  {
  }

  // The codec.

  /** Position of bit (x, y, z) in a flat string with lanes of w bits. */
  function BitIndex(w: nat, x: nat, y: nat, z: nat): (i: nat)
    requires x < 5 && y < 5 && z < w
    ensures i < 25 * w
  {
    assert w * (5 * y + x) + w == w * (5 * y + x + 1) <= w * 25 by {
      MulMonotone(w, 5 * y + x + 1, 25);
    }
    w * (5 * y + x) + z
  }

  /**
   * The state a bit string decodes to: lanes of w = |b| / 25 bits, bit
   * w(5y + x) + z at (x, y, z), the rest of each 64-bit lane left false.
   */
  function StateOf(b: seq<bool>): (s: State)
    requires |b| / 25 <= W
    ensures WellFormed(s)
  {
    var w := |b| / 25;
    seq(5, x requires 0 <= x < 5 =>
      seq(5, y requires 0 <= y < 5 =>
        seq(W, z requires 0 <= z < W => if z < w then b[BitIndex(w, x, y, z)] else false)))
  }

  /** Concatenation of lanes, as `.concat()` on a plane. */
  function ConcatLanes(ls: seq<Lane>): (r: seq<bool>)
    requires forall i :: 0 <= i < |ls| ==> |ls[i]| == W
    ensures |r| == W * |ls|
  {
    if ls == [] then [] else ls[0] + ConcatLanes(ls[1..])
  }

  /** Planes 0 .. n-1 appended in order, each plane in x order. */
  function ConcatPlanes(s: State, n: nat): (r: seq<bool>)
    requires WellFormed(s) && n <= 5
    ensures |r| == 5 * W * n
  {
    if n == 0 then [] else ConcatPlanes(s, n - 1) + ConcatLanes(Plane(s, n - 1))
  }

  /** The flat string of a state, plane after plane. */
  function BitsOf(s: State): (r: seq<bool>)
    requires WellFormed(s)
    ensures |r| == B
  {
    ConcatPlanes(s, 5)
  }

  lemma {:induction false} ConcatLanesAt(ls: seq<Lane>, i: nat, z: nat)
    requires forall j :: 0 <= j < |ls| ==> |ls[j]| == W
    requires i < |ls| && z < W
    ensures ConcatLanes(ls)[W * i + z] == ls[i][z]
  {
    if i > 0 {
      ConcatLanesAt(ls[1..], i - 1, z);
    }
  }

  lemma {:induction false} ConcatPlanesAt(s: State, n: nat, x: nat, y: nat, z: nat)
    requires WellFormed(s) && n <= 5
    requires x < 5 && y < n && z < W
    ensures ConcatPlanes(s, n)[W * (5 * y + x) + z] == s[x][y][z]
  {
    if y < n - 1 {
      ConcatPlanesAt(s, n - 1, x, y, z);
    } else {
      ConcatLanesAt(Plane(s, y), x, z);
    }
  }

  /** The flat string puts bit (x, y, z) at W(5y + x) + z, the law StateOf reads. */
  lemma BitsOfAt(s: State, x: nat, y: nat, z: nat)
    requires WellFormed(s) && x < 5 && y < 5 && z < W
    ensures BitsOf(s)[BitIndex(W, x, y, z)] == s[x][y][z]
  {
    ConcatPlanesAt(s, 5, x, y, z);
  }

  /** Every position of a 1600-bit string is the index of exactly one (x, y, z). */
  lemma SplitIndex(i: nat) returns (x: nat, y: nat, z: nat)
    requires i < B
    ensures x < 5 && y < 5 && z < W && i == BitIndex(W, x, y, z)
  {
    y, x, z := i / 320, (i / 64) % 5, i % 64;
  }

  /** Decoding then encoding a 1600-bit string gives it back. */
  lemma BitsOfStateOf(b: seq<bool>)
    requires |b| == B
    ensures BitsOf(StateOf(b)) == b
  {
    var s := StateOf(b);
    forall i | 0 <= i < B ensures BitsOf(s)[i] == b[i] {
      var x, y, z := SplitIndex(i);
      BitsOfAt(s, x, y, z);
    }
  }

  /** Encoding then decoding a state gives it back. */
  lemma StateOfBitsOf(s: State)
    requires WellFormed(s)
    ensures StateOf(BitsOf(s)) == s
  {
    var t := StateOf(BitsOf(s));
    forall x | 0 <= x < 5 ensures t[x] == s[x] {
      forall y | 0 <= y < 5 ensures t[x][y] == s[x][y] {
        forall z | 0 <= z < W ensures t[x][y][z] == s[x][y][z] {
          BitsOfAt(s, x, y, z);
        }
      }
    }
  }

  /**
   * `bstr_to_state`: a triple loop that writes bit w(5y + x) + z of the
   * string into a copy of the zero state.
   */
  method BstrToState(bstr: seq<bool>) returns (state: State)
    requires |bstr| / 25 <= W
    ensures state == StateOf(bstr)
  {
    var w := |bstr| / 25;
    state := Zero();
    ghost var target := StateOf(bstr);
    for x := 0 to 5
      invariant WellFormed(state)
      invariant forall x', y' :: 0 <= x' < 5 && 0 <= y' < 5 ==>
        state[x'][y'] == if x' < x then target[x'][y'] else ZeroLane()
    {
      for y := 0 to 5
        invariant WellFormed(state)
        invariant forall x', y' :: 0 <= x' < 5 && 0 <= y' < 5 ==>
          state[x'][y'] == if x' < x || (x' == x && y' < y) then target[x'][y'] else ZeroLane()
      {
        var lane := state[x][y];
        for z := 0 to w
          invariant |lane| == W
          invariant forall z' :: 0 <= z' < W ==> lane[z'] == if z' < z then target[x][y][z'] else false
        {
          lane := lane[z := bstr[BitIndex(w, x, y, z)]];
        }
        assert lane == target[x][y];
        state := state[x := state[x][y := lane]];
      }
    }
    forall x' | 0 <= x' < 5 ensures state[x'] == target[x'] {
      assert forall y' :: 0 <= y' < 5 ==> state[x'][y'] == target[x'][y'];
    }
  }

  /**
   * `state_to_bstr`: appends, for y from 0 to 4, the concatenated lanes of
   * plane y.
   */
  method StateToBstr(state: State) returns (output: seq<bool>)
    requires WellFormed(state)
    ensures output == BitsOf(state)
    ensures |output| == B
    ensures forall x, y, z :: 0 <= x < 5 && 0 <= y < 5 && 0 <= z < W ==>
      output[BitIndex(W, x, y, z)] == state[x][y][z]
  {
    output := [];
    for y := 0 to 5
      invariant output == ConcatPlanes(state, y)
    {
      output := output + ConcatLanes(Plane(state, y));
    }
    forall x, y, z | 0 <= x < 5 && 0 <= y < 5 && 0 <= z < W
      ensures output[BitIndex(W, x, y, z)] == state[x][y][z]
    {
      BitsOfAt(state, x, y, z);
    }
  }
}
