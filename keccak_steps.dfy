/**
 * The five step mappings of `src/sha/sha3.rs`, the round-constant register
 * and the round function, as the source writes them.
 *
 * The source addresses the x and y axes through the order 3 4 0 1 2, that is
 * "add 2, mod 5" (`Shifted` below) in theta, rho, pi and chi, while the codec
 * uses no offset. Resolved into plain coordinates this gives:
 *  - theta XORs bit (X, Y, z) with D of column X + 3, not X;
 *  - rho and iota target lane (2, 2) where the standard has lane (0, 0).
 */
module KeccakSteps {
  import opened KeccakState

  /** The source's offset coordinate: loop index i addresses (i + 2) mod 5. */
  function Shifted(i: int): (r: int)
    requires 0 <= i < 5
    ensures 0 <= r < 5
    ensures r == if i < 3 then i + 2 else i - 3
  {
    (i + 2) % 5
  }

  /** The loop index that addresses coordinate X. */
  function Unshifted(X: int): (r: int)
    requires 0 <= X < 5
    ensures 0 <= r < 5
    ensures r == if X < 2 then X + 3 else X - 2
  {
    (X + 3) % 5
  }

  // theta

  /** C[x][z]: parity of the five bits of column (x, z). */
  function ColumnParity(s: State, x: int, z: int): bool
    requires WellFormed(s) && 0 <= x < 5 && 0 <= z < W
  {
    var c := Column(s, x, z);
    (((c[0] != c[1]) != c[2]) != c[3]) != c[4]
  }

  /** D[x][z] = C[x - 1][z] XOR C[x + 1][z - 1], indices mod 5 and mod W. */
  function ThetaD(s: State, x: int, z: int): bool
    requires WellFormed(s) && 0 <= x < 5 && 0 <= z < W
  {
    ColumnParity(s, (x + 4) % 5, z) != ColumnParity(s, (x + 1) % 5, (z + W - 1) % W)
  }

  /** Lane (x, y) of theta's output: the input lane XORed with D[x + 3]. */
  function ThetaLane(s: State, x: int, y: int): (r: Lane)
    requires WellFormed(s) && 0 <= x < 5 && 0 <= y < 5
    ensures |r| == W
  {
    seq(W, z requires 0 <= z < W => s[x][y][z] != ThetaD(s, (x + 3) % 5, z))
  }

  /** theta as the source computes it: bit (X, Y, z) is XORed with D[X + 3][z]. */
  function Theta(s: State): (r: State)
    requires WellFormed(s)
    ensures WellFormed(r)
  {
    seq(5, x requires 0 <= x < 5 => seq(5, y requires 0 <= y < 5 => ThetaLane(s, x, y)))
  }

  /** Column parities C of a state, as a 5 x W table. */
  predicate IsParityTable(state: State, c: seq<Lane>)
    requires WellFormed(state)
  {
    && |c| == 5 && (forall i :: 0 <= i < 5 ==> |c[i]| == W)
    && forall x, z :: 0 <= x < 5 && 0 <= z < W ==> c[x][z] == ColumnParity(state, x, z)
  }

  /** The D table of theta, as a 5 x W table. */
  predicate IsDiffTable(state: State, d: seq<Lane>)
    requires WellFormed(state)
  {
    && |d| == 5 && (forall i :: 0 <= i < 5 ==> |d[i]| == W)
    && forall x, z :: 0 <= x < 5 && 0 <= z < W ==> d[x][z] == ThetaD(state, x, z)
  }

  /**
   * `theta`: fills c over offset columns, then d, then XORs d[x] into every
   * lane at offset coordinates (x + 2, y + 2) of a copy of the input. The
   * three loops are the three methods below.
   */
  method ComputeTheta(state: State) returns (a: State)
    requires WellFormed(state)
    ensures WellFormed(a)
    ensures forall x, y, z :: 0 <= x < 5 && 0 <= y < 5 && 0 <= z < W ==>
      a[x][y][z] == (state[x][y][z] != ThetaD(state, (x + 3) % 5, z))
    ensures a == Theta(state)
  {
    var c := ThetaParities(state);
    var d := ThetaDiffs(state, c);
    a := ThetaApply(state, d);
    forall x, y, z | 0 <= x < 5 && 0 <= y < 5 && 0 <= z < W
      ensures a[x][y][z] == (state[x][y][z] != ThetaD(state, (x + 3) % 5, z))
    {
      assert a[x][y][z] == (state[x][y][z] != d[Unshifted(x)][z]);
    }
    ThetaUnique(state, a);
  }

  /** A well-formed state that has theta's bits everywhere is Theta(state). */
  lemma ThetaUnique(state: State, a: State)
    requires WellFormed(state) && WellFormed(a)
    requires forall x, y, z :: 0 <= x < 5 && 0 <= y < 5 && 0 <= z < W ==>
      a[x][y][z] == (state[x][y][z] != ThetaD(state, (x + 3) % 5, z))
    ensures a == Theta(state)
  {
    var t := Theta(state);
    forall x | 0 <= x < 5 ensures a[x] == t[x] {
      forall y | 0 <= y < 5 ensures a[x][y] == t[x][y] {
        var l := ThetaLane(state, x, y);
        forall z | 0 <= z < W ensures a[x][y][z] == l[z] {
        }
      }
    }
  }

  /** First loop of `theta`: c[x][z] for x visited in offset order. */
  method ThetaParities(state: State) returns (c: seq<Lane>)
    requires WellFormed(state)
    ensures IsParityTable(state, c)
  {
    c := seq(5, _ => ZeroLane());
    for x := 0 to 5
      invariant |c| == 5 && forall i :: 0 <= i < 5 ==> |c[i]| == W
      invariant forall X, z :: 0 <= X < 5 && Unshifted(X) < x && 0 <= z < W ==>
        c[X][z] == ColumnParity(state, X, z)
    {
      var cx := Shifted(x);
      for z := 0 to W
        invariant |c| == 5 && forall i :: 0 <= i < 5 ==> |c[i]| == W
        invariant forall X, z' :: 0 <= X < 5 && Unshifted(X) < x && 0 <= z' < W ==>
          c[X][z'] == ColumnParity(state, X, z')
        invariant forall z' :: 0 <= z' < z ==> c[cx][z'] == ColumnParity(state, cx, z')
      {
        var parity := (((state[cx][3][z] != state[cx][4][z]) != state[cx][0][z]) != state[cx][1][z]) != state[cx][2][z];
        c := c[cx := c[cx][z := parity]];
      }
    }
  }

  /** Second loop of `theta`: d[x][z] = c[x - 1][z] XOR c[x + 1][z - 1]. */
  method ThetaDiffs(state: State, c: seq<Lane>) returns (d: seq<Lane>)
    requires WellFormed(state) && IsParityTable(state, c)
    ensures IsDiffTable(state, d)
  {
    d := seq(5, _ => ZeroLane());
    for x := 0 to 5
      invariant |d| == 5 && forall i :: 0 <= i < 5 ==> |d[i]| == W
      invariant forall x', z :: 0 <= x' < x && 0 <= z < W ==> d[x'][z] == ThetaD(state, x', z)
    {
      for z := 0 to W
        invariant |d| == 5 && forall i :: 0 <= i < 5 ==> |d[i]| == W
        invariant forall x', z' :: 0 <= x' < x && 0 <= z' < W ==> d[x'][z'] == ThetaD(state, x', z')
        invariant forall z' :: 0 <= z' < z ==> d[x][z'] == ThetaD(state, x, z')
      {
        d := d[x := d[x][z := c[(x + 5 - 1) % 5][z] != c[(x + 1) % 5][(z + W - 1) % W]]];
      }
    }
  }

  /** Bitwise XOR of two lanes. */
  function XorLanes(l: Lane, m: Lane): (r: Lane)
    requires |l| == W && |m| == W
    ensures |r| == W && forall z :: 0 <= z < W ==> r[z] == (l[z] != m[z])
  {
    seq(W, z requires 0 <= z < W => l[z] != m[z])
  }

  /** Third loop of `theta`: a[x + 2][y + 2][z] ^= d[x][z] on a copy of the input. */
  method ThetaApply(state: State, d: seq<Lane>) returns (a: State)
    requires WellFormed(state) && |d| == 5 && forall i :: 0 <= i < 5 ==> |d[i]| == W
    ensures WellFormed(a)
    ensures forall x, y :: 0 <= x < 5 && 0 <= y < 5 ==> a[x][y] == XorLanes(state[x][y], d[Unshifted(x)])
  {
    a := state;
    for x := 0 to 5
      invariant WellFormed(a)
      invariant forall X, Y :: 0 <= X < 5 && 0 <= Y < 5 ==>
        a[X][Y] == if Unshifted(X) < x then XorLanes(state[X][Y], d[Unshifted(X)]) else state[X][Y]
    {
      var ax := Shifted(x);
      for y := 0 to 5
        invariant WellFormed(a)
        invariant forall X, Y :: 0 <= X < 5 && 0 <= Y < 5 && X != ax ==>
          a[X][Y] == if Unshifted(X) < x then XorLanes(state[X][Y], d[Unshifted(X)]) else state[X][Y]
        invariant forall Y :: 0 <= Y < 5 ==>
          a[ax][Y] == if Unshifted(Y) < y then XorLanes(state[ax][Y], d[x]) else state[ax][Y]
      {
        var ay := Shifted(y);
        var lane := a[ax][ay];
        for z := 0 to W
          invariant |lane| == W
          invariant forall z' :: 0 <= z' < W ==>
            lane[z'] == if z' < z then state[ax][ay][z'] != d[x][z'] else state[ax][ay][z']
        {
          lane := lane[z := lane[z] != d[x][z]];
        }
        assert lane == XorLanes(state[ax][ay], d[x]);
        a := a[ax := a[ax][ay := lane]];
      }
    }
  }

  // rho

  /** Rotation offset of the t-th lane of rho's walk: (t + 1)(t + 2) / 2. */
  function RhoOffset(t: int): int {
    (t + 1) * (t + 2) / 2
  }

  /** The bit that rho's step t reads for output bit z: (z + 10w - offset) mod w. */
  function RhoSource(z: int, t: int): (r: int)
    requires 0 <= z < W
    ensures 0 <= r < W
  {
    (z + 10 * W - RhoOffset(t)) % W
  }

  /** One step of rho's lane walk: (x, y) becomes (y, 2x + 3y mod 5). */
  function WalkStep(x: int, y: int): (r: (int, int))
    requires 0 <= x < 5 && 0 <= y < 5
    ensures 0 <= r.0 < 5 && 0 <= r.1 < 5
    ensures r == (0, 0) <==> (x, y) == (0, 0)
  {
    (y, (2 * x + 3 * y) % 5)
  }

  /**
   * The position of lane (x, y) in rho's walk from (1, 0), which visits the
   * other 24 lanes in turn and then returns to (1, 0); -1 for lane (0, 0),
   * which it never visits.
   */
  function WalkIndex(x: int, y: int): (r: int)
    requires 0 <= x < 5 && 0 <= y < 5
    ensures -1 <= r < 24
    ensures r == -1 <==> (x, y) == (0, 0)
  {
    [[-1, 7, 1, 13, 19], [0, 23, 3, 8, 10], [18, 2, 17, 4, 21], [6, 9, 16, 5, 14], [12, 22, 20, 15, 11]][x][y]
  }

  /** One walk step moves a lane other than (0, 0) one position further round the 24-cycle. */
  lemma WalkStepIndex(x: int, y: int, z: int)
    requires 0 <= x < 5 && 0 <= y < 5 && (x, y) != (0, 0) && 0 <= z && WalkIndex(x, y) % 8 == z % 8
    ensures WalkIndex(WalkStep(x, y).0, WalkStep(x, y).1) == (WalkIndex(x, y) + 1) % 24
    ensures WalkIndex(WalkStep(x, y).0, WalkStep(x, y).1) % 8 == (z + 1) % 8
  {
    if x == 0 {
    } else if x == 1 {
    } else if x == 2 {
    } else if x == 3 {
    } else {
    }
    CycleCongruent(WalkIndex(x, y), z);
  }

  /** Stepping once round a 24-cycle keeps a position congruent to a counter modulo 8. */
  lemma CycleCongruent(k: int, z: int)
    requires 0 <= k < 24 && 0 <= z && k % 8 == z % 8
    ensures (k + 1) % 24 % 8 == (z + 1) % 8
  {
    var q := z / 8;
    assert z == 8 * q + k % 8;
    assert z + 1 == 8 * q + (k % 8 + 1);
  }

  /** Every set bit outside lane (2, 2) is a set bit of its input lane under one of the first n rotations. */
  ghost predicate FromRotations(state: State, a: State, n: int)
    requires WellFormed(state) && WellFormed(a)
  {
    forall x, y, z :: 0 <= x < 5 && 0 <= y < 5 && (x, y) != (2, 2) && 0 <= z < W && a[x][y][z] ==>
      exists t :: 0 <= t < n && state[x][y][RhoSource(z, t)]
  }

  /** Outside lane (2, 2), bit z is false unless z is congruent modulo 8 to the lane's walk position. */
  ghost predicate OffClassFalse(a: State)
    requires WellFormed(a)
  {
    forall x, y, z :: (0 <= x < 5 && 0 <= y < 5 && (x, y) != (2, 2) && 0 <= z < W &&
      z % 8 != WalkIndex(Unshifted(x), Unshifted(y)) % 8) ==> !a[x][y][z]
  }

  /** State a with bit (x, y, z) set to b. */
  function SetBit(a: State, x: int, y: int, z: int, b: bool): (r: State)
    requires WellFormed(a) && 0 <= x < 5 && 0 <= y < 5 && 0 <= z < W
    ensures WellFormed(r)
    ensures forall X, Y, Z :: 0 <= X < 5 && 0 <= Y < 5 && 0 <= Z < W ==>
      r[X][Y][Z] == if (X, Y, Z) == (x, y, z) then b else a[X][Y][Z]
  {
    a[x := a[x][y := a[x][y][z := b]]]
  }

  /** One bit written by rho's inner loop keeps both loop invariants. */
  lemma RhoWriteKeeps(state: State, a: State, ax: int, ay: int, z: int, t: int, i: int)
    requires WellFormed(state) && WellFormed(a) && a[2][2] == state[0][0]
    requires 0 <= ax < 5 && 0 <= ay < 5 && (ax, ay) != (2, 2) && 0 <= z < W && 0 <= t < 24
    requires WalkIndex(Unshifted(ax), Unshifted(ay)) == i && i % 8 == z % 8
    requires FromRotations(state, a, t + 1) && OffClassFalse(a)
    ensures var r := SetBit(a, ax, ay, z, state[ax][ay][RhoSource(z, t)]);
      r[2][2] == state[0][0] && FromRotations(state, r, t + 1) && OffClassFalse(r)
  {
    var r := SetBit(a, ax, ay, z, state[ax][ay][RhoSource(z, t)]);
    forall x, y, z' | 0 <= x < 5 && 0 <= y < 5 && (x, y) != (2, 2) && 0 <= z' < W && r[x][y][z']
      ensures exists t' :: 0 <= t' < t + 1 && state[x][y][RhoSource(z', t')]
    {
      if (x, y, z') == (ax, ay, z) {
        assert state[x][y][RhoSource(z', t)];
      }
    }
    forall x, y, z' | (0 <= x < 5 && 0 <= y < 5 && (x, y) != (2, 2) && 0 <= z' < W &&
      z' % 8 != WalkIndex(Unshifted(x), Unshifted(y)) % 8)
      ensures !r[x][y][z']
    {
    }
    assert r[2][2] == state[0][0] by {
      forall z' | 0 <= z' < W ensures r[2][2][z'] == state[0][0][z'] { }
    }
  }

  /**
   * `rho`: lane (2, 2) of a zero state receives input lane (0, 0); then for
   * t in 0..24 and z in 0..w the bit at offset coordinates (x + 2, y + 2) is
   * read from the same lane rotated by (t + 1)(t + 2) / 2, and the walk
   * advances after every bit, not after every lane. Since 64 is a multiple of
   * 8 and the walk has length 24, bit z is only ever written in lanes whose
   * walk position is congruent to z modulo 8; the other bits stay false.
   */
  method ComputeRho(state: State) returns (a: State)
    requires WellFormed(state)
    ensures WellFormed(a)
    ensures a[2][2] == state[0][0]
    ensures forall x, y, z :: 0 <= x < 5 && 0 <= y < 5 && (x, y) != (2, 2) && 0 <= z < W && a[x][y][z] ==>
      exists t :: 0 <= t < 24 && state[x][y][RhoSource(z, t)]
    ensures forall x, y, z :: (0 <= x < 5 && 0 <= y < 5 && (x, y) != (2, 2) && 0 <= z < W &&
      z % 8 != WalkIndex(Unshifted(x), Unshifted(y)) % 8) ==> !a[x][y][z]
  {
    a := Zero();
    a := a[2 := a[2][2 := state[0][0]]];
    var x, y := 1, 0;
    for t := 0 to 24
      invariant WellFormed(a) && a[2][2] == state[0][0]
      invariant 0 <= x < 5 && 0 <= y < 5 && (x, y) != (0, 0) && WalkIndex(x, y) % 8 == 0
      invariant FromRotations(state, a, t) && OffClassFalse(a)
    {
      a, x, y := RhoPass(state, a, x, y, t);
    }
    assert FromRotations(state, a, 24) && OffClassFalse(a);
  }

  /** The inner z loop of `rho` for one t: w bits, the walk advancing after each. */
  method RhoPass(state: State, a0: State, x0: int, y0: int, t: int) returns (a: State, x: int, y: int)
    requires WellFormed(state) && WellFormed(a0) && a0[2][2] == state[0][0]
    requires 0 <= t < 24 && 0 <= x0 < 5 && 0 <= y0 < 5 && (x0, y0) != (0, 0) && WalkIndex(x0, y0) % 8 == 0
    requires FromRotations(state, a0, t) && OffClassFalse(a0)
    ensures WellFormed(a) && a[2][2] == state[0][0]
    ensures 0 <= x < 5 && 0 <= y < 5 && (x, y) != (0, 0) && WalkIndex(x, y) % 8 == 0
    ensures FromRotations(state, a, t + 1) && OffClassFalse(a)
  {
    a, x, y := a0, x0, y0;
    for z := 0 to W
      invariant WellFormed(a) && a[2][2] == state[0][0]
      invariant 0 <= x < 5 && 0 <= y < 5 && (x, y) != (0, 0) && WalkIndex(x, y) % 8 == z % 8
      invariant FromRotations(state, a, t + 1) && OffClassFalse(a)
    {
      var ax, ay := Shifted(x), Shifted(y);
      RhoWriteKeeps(state, a, ax, ay, z, t, WalkIndex(x, y));
      a := SetBit(a, ax, ay, z, state[ax][ay][RhoSource(z, t)]);
      WalkStepIndex(x, y, z);
      x, y := WalkStep(x, y).0, WalkStep(x, y).1;
    }
  }

  // pi

  /** Input lane that pi copies into output lane (x, y). */
  function PiSource(x: int, y: int): (r: (int, int))
    requires 0 <= x < 5 && 0 <= y < 5
  {
    ((x + 3 * y + 4) % 5, x)
  }

  /** Output lane that receives input lane (u, v): the inverse lane map. */
  function PiTarget(u: int, v: int): (r: (int, int))
    requires 0 <= u < 5 && 0 <= v < 5
  {
    (v, (2 * u + 3 * v + 2) % 5)
  }

  /** The lane map of pi is a bijection of the 25 lanes. */
  lemma PiLaneMapBijective(x: int, y: int, u: int, v: int)
    requires 0 <= x < 5 && 0 <= y < 5 && 0 <= u < 5 && 0 <= v < 5
    ensures 0 <= PiSource(x, y).0 < 5 && 0 <= PiTarget(u, v).1 < 5
    ensures PiTarget(PiSource(x, y).0, PiSource(x, y).1) == (x, y)
    ensures PiSource(PiTarget(u, v).0, PiTarget(u, v).1) == (u, v)
  {
  }

  /** pi as the source computes it: output lane (x, y) is input lane (x + 3y + 4, x). */
  function Pi(s: State): (r: State)
    requires WellFormed(s)
    ensures WellFormed(r)
  {
    seq(5, x requires 0 <= x < 5 => seq(5, y requires 0 <= y < 5 => s[(x + 3 * y + 4) % 5][x]))
  }

  /** The positional inverse of pi. */
  function PiInverse(s: State): (r: State)
    requires WellFormed(s)
    ensures WellFormed(r)
  {
    seq(5, u requires 0 <= u < 5 => seq(5, v requires 0 <= v < 5 => s[v][(2 * u + 3 * v + 2) % 5]))
  }

  lemma PiThenInverse(s: State)
    requires WellFormed(s)
    ensures PiInverse(Pi(s)) == s
  {
    var t := PiInverse(Pi(s));
    forall u | 0 <= u < 5 ensures t[u] == s[u] {
      forall v | 0 <= v < 5 ensures t[u][v] == s[u][v] {
        PiLaneMapBijective(0, 0, u, v);
      }
    }
  }

  lemma InverseThenPi(s: State)
    requires WellFormed(s)
    ensures Pi(PiInverse(s)) == s
  {
    var t := Pi(PiInverse(s));
    forall x | 0 <= x < 5 ensures t[x] == s[x] {
      forall y | 0 <= y < 5 ensures t[x][y] == s[x][y] {
        PiLaneMapBijective(x, y, 0, 0);
      }
    }
  }

  /** The source's pi index (x + 3y + 2) in loop coordinates is PiSource in plain ones. */
  lemma PiIndex(x: int, y: int)
    requires 0 <= x < 5 && 0 <= y < 5
    ensures (x + 3 * y + 2) % 5 == PiSource(Shifted(x), Shifted(y)).0
  {
  }

  /**
   * `pi`: on a zero state, for every (x, y, z), the bit at offset
   * coordinates (x + 2, y + 2) is read from (x + 3y + 2, x + 2).
   */
  method ComputePi(state: State) returns (a: State)
    requires WellFormed(state)
    ensures WellFormed(a)
    ensures forall x, y :: 0 <= x < 5 && 0 <= y < 5 ==> a[x][y] == state[PiSource(x, y).0][PiSource(x, y).1]
    ensures a == Pi(state)
  {
    a := Zero();
    for x := 0 to 5
      invariant WellFormed(a)
      invariant forall X, Y :: 0 <= X < 5 && 0 <= Y < 5 ==>
        a[X][Y] == if Unshifted(X) < x then state[PiSource(X, Y).0][X] else ZeroLane()
    {
      var ax := Shifted(x);
      for y := 0 to 5
        invariant WellFormed(a)
        invariant forall X, Y :: 0 <= X < 5 && 0 <= Y < 5 && X != ax ==>
          a[X][Y] == if Unshifted(X) < x then state[PiSource(X, Y).0][X] else ZeroLane()
        invariant forall Y :: 0 <= Y < 5 ==>
          a[ax][Y] == if Unshifted(Y) < y then state[PiSource(ax, Y).0][ax] else ZeroLane()
      {
        var ay := Shifted(y);
        var src := (x + 3 * y + 2) % 5;
        PiIndex(x, y);
        var lane := a[ax][ay];
        for z := 0 to W
          invariant |lane| == W
          invariant forall z' :: 0 <= z' < W ==> lane[z'] == if z' < z then state[src][ax][z'] else false
        {
          lane := lane[z := state[src][ax][z]];
        }
        assert lane == state[src][ax];
        a := a[ax := a[ax][ay := lane]];
      }
    }
    var p := Pi(state);
    forall x | 0 <= x < 5 ensures a[x] == p[x] {
      assert forall y :: 0 <= y < 5 ==> a[x][y] == p[x][y];
    }
  }

  // chi

  /** Lane (x, y) of chi: a[x][y][z] XOR (NOT a[x + 1][y][z] AND a[x + 2][y][z]). */
  function ChiLane(s: State, x: int, y: int): (r: Lane)
    requires WellFormed(s) && 0 <= x < 5 && 0 <= y < 5
    ensures |r| == W
  {
    seq(W, z requires 0 <= z < W => s[x][y][z] != (!s[(x + 1) % 5][y][z] && s[(x + 2) % 5][y][z]))
  }

  function Chi(s: State): (r: State)
    requires WellFormed(s)
    ensures WellFormed(r)
  {
    seq(5, x requires 0 <= x < 5 => seq(5, y requires 0 <= y < 5 => ChiLane(s, x, y)))
  }

  /** Each bit of chi's output depends only on the input row that holds it. */
  lemma ChiRowLocal(s: State, s': State, y: int, z: int)
    requires WellFormed(s) && WellFormed(s') && 0 <= y < 5 && 0 <= z < W
    requires Row(s, y, z) == Row(s', y, z)
    ensures Row(Chi(s), y, z) == Row(Chi(s'), y, z)
  {
    forall x | 0 <= x < 5 ensures Chi(s)[x][y][z] == Chi(s')[x][y][z] {
      CrossSectionsAgree(s, x, y, z);
      CrossSectionsAgree(s', x, y, z);
      CrossSectionsAgree(s, (x + 1) % 5, y, z);
      CrossSectionsAgree(s', (x + 1) % 5, y, z);
      CrossSectionsAgree(s, (x + 2) % 5, y, z);
      CrossSectionsAgree(s', (x + 2) % 5, y, z);
    }
    var r, r' := Row(Chi(s), y, z), Row(Chi(s'), y, z);
    forall x | 0 <= x < 5 ensures r[x] == r'[x] {
      CrossSectionsAgree(Chi(s), x, y, z);
      CrossSectionsAgree(Chi(s'), x, y, z);
    }
  }

  /**
   * `chi`: on a copy of the input, the bit at offset coordinates
   * (x + 2, y + 2) is XORed with NOT in[x + 3][y + 2] AND in[x + 4][y + 2],
   * reading only the unmodified input.
   */
  method ComputeChi(state: State) returns (a: State)
    requires WellFormed(state)
    ensures WellFormed(a)
    ensures a == Chi(state)
  {
    ghost var c := Chi(state);
    a := state;
    for x := 0 to 5
      invariant WellFormed(a)
      invariant forall X, Y :: 0 <= X < 5 && 0 <= Y < 5 ==>
        a[X][Y] == if Unshifted(X) < x then c[X][Y] else state[X][Y]
    {
      var ax := Shifted(x);
      for y := 0 to 5
        invariant WellFormed(a)
        invariant forall X, Y :: 0 <= X < 5 && 0 <= Y < 5 && X != ax ==>
          a[X][Y] == if Unshifted(X) < x then c[X][Y] else state[X][Y]
        invariant forall Y :: 0 <= Y < 5 ==>
          a[ax][Y] == if Unshifted(Y) < y then c[ax][Y] else state[ax][Y]
      {
        var ay := Shifted(y);
        var lane := ChiRowLoop(state, x, y);
        a := a[ax := a[ax][ay := lane]];
      }
    }
    forall x | 0 <= x < 5 ensures a[x] == c[x] {
      assert forall y :: 0 <= y < 5 ==> a[x][y] == c[x][y];
    }
  }

  /** The inner z loop of `chi` for the lane at loop coordinates (x, y). */
  method ChiRowLoop(state: State, x: int, y: int) returns (lane: Lane)
    requires WellFormed(state) && 0 <= x < 5 && 0 <= y < 5
    ensures lane == Chi(state)[Shifted(x)][Shifted(y)]
  {
    var ax, ay := Shifted(x), Shifted(y);
    var x1, x2 := (x + 3) % 5, (x + 4) % 5;
    assert x1 == (ax + 1) % 5 && x2 == (ax + 2) % 5;
    lane := state[ax][ay];
    for z := 0 to W
      invariant |lane| == W
      invariant forall z' :: 0 <= z' < W ==>
        lane[z'] == if z' < z then ChiLane(state, ax, ay)[z'] else state[ax][ay][z']
    {
      lane := lane[z := lane[z] != ((state[x1][ay][z] != true) && state[x2][ay][z])];
    }
  }

  // rc

  /** Rust's `%` on integers: the remainder truncated toward zero, sign of the dividend. */
  function RustRem(a: int, b: int): (r: int)
    requires b > 0
    ensures -b < r < b
    ensures a >= 0 ==> r == a % b
    ensures a < 0 ==> r <= 0
  {
    if a >= 0 then a % b else -((-a) % b)
  }

  /**
   * One step of rc's register: `true` is inserted in front, bit 8 (the old
   * bit 7) is XORed into bits 0, 4, 5 and 6, and the register is cut to 8 bits.
   */
  function LfsrStep(r: seq<bool>): (r': seq<bool>)
    requires |r| == 8
    ensures |r'| == 8
    ensures r'[1..4] == r[..3] && r'[7] == r[6]
  {
    [true != r[7], r[0], r[1], r[2], r[3] != r[7], r[4] != r[7], r[5] != r[7], r[6]]
  }

  /** The step taken backwards. */
  function LfsrUnstep(r': seq<bool>): (r: seq<bool>)
    requires |r'| == 8
    ensures |r| == 8
  {
    var b7 := !r'[0];
    [r'[1], r'[2], r'[3], r'[4] != b7, r'[5] != b7, r'[6] != b7, r'[7], b7]
  }

  /** The register step is a bijection on 8-bit registers: no two registers collide. */
  lemma LfsrStepInvertible(r: seq<bool>, r': seq<bool>)
    requires |r| == 8 && |r'| == 8
    ensures LfsrUnstep(LfsrStep(r)) == r
    ensures LfsrStep(LfsrUnstep(r')) == r'
  {
    var u := LfsrUnstep(LfsrStep(r));
    assert forall i :: 0 <= i < 8 ==> u[i] == r[i];
    var v := LfsrStep(LfsrUnstep(r'));
    assert forall i :: 0 <= i < 8 ==> v[i] == r'[i];
  }

  /** The register after n steps from 10000000. */
  function Lfsr(n: nat): (r: seq<bool>)
    ensures |r| == 8
  {
    if n == 0 then [true, false, false, false, false, false, false, false] else LfsrStep(Lfsr(n - 1))
  }

  /**
   * `rc(t)`: true when t % 255 is zero, otherwise bit 0 of the register after
   * t % 255 - 1 steps (none when the truncated remainder is negative).
   */
  function Rc(t: int): bool {
    var m := RustRem(t, 255);
    if m == 0 then true else Lfsr(if m > 1 then m - 1 else 0)[0]
  }

  method ComputeRc(t: int) returns (b: bool)
    ensures b == Rc(t)
  {
    var m := RustRem(t, 255);
    if m == 0 {
      return true;
    }
    var r := [true, false, false, false, false, false, false, false];
    var i := 1;
    while i < m
      invariant 1 <= i && (m > 1 ==> i <= m) && (m <= 1 ==> i == 1)
      invariant r == Lfsr(i - 1)
    {
      r := ShiftRegister(r);
      i := i + 1;
    }
    assert i - 1 == if m > 1 then m - 1 else 0;
    b := r[0];
  }

  /** The body of rc's loop: insert `true` in front, feed bit 8 back, cut to 8 bits. */
  method ShiftRegister(r0: seq<bool>) returns (r: seq<bool>)
    requires |r0| == 8
    ensures r == LfsrStep(r0)
  {
    r := [true] + r0;
    r := r[0 := r[0] != r[8]];
    r := r[4 := r[4] != r[8]];
    r := r[5 := r[5] != r[8]];
    r := r[6 := r[6] != r[8]];
    r := r[..8];
    assert forall k :: 0 <= k < 8 ==> r[k] == LfsrStep(r0)[k];
  }

  /** rc depends only on t modulo 255 for non-negative t. */
  lemma RcPeriodic(t: int)
    requires t >= 0
    ensures Rc(t + 255) == Rc(t)
  {
    assert (t + 255) % 255 == t % 255;
  }

  /** rc is true at every multiple of 255 and at every non-positive t. */
  lemma RcTrueCases(t: int)
    requires t <= 0 || t % 255 == 0
    ensures Rc(t)
  {
  }

  // iota

  function Pow2(j: nat): (r: nat)
    ensures r >= 1
  {
    if j == 0 then 1 else 2 * Pow2(j - 1)
  }

  /** The exponent j < L with 2^j - 1 == z, or -1 when there is none. */
  function MaskIndex(z: int): (j: int)
    ensures -1 <= j < L
  {
    if z == 0 then 0 else if z == 1 then 1 else if z == 3 then 2
    else if z == 7 then 3 else if z == 15 then 4 else if z == 31 then 5 else -1
  }

  /** MaskIndex is the inverse of j |-> 2^j - 1 on j < L. */
  lemma MaskIndexOfPow2(j: nat, z: int)
    requires j < L
    ensures Pow2(j) - 1 < W && MaskIndex(Pow2(j) - 1) == j
    ensures MaskIndex(z) == j ==> z == Pow2(j) - 1
  {
    if j > 0 { assert Pow2(j) == 2 * Pow2(j - 1); }
    if j > 1 { assert Pow2(j - 1) == 2 * Pow2(j - 2); }
    if j > 2 { assert Pow2(j - 2) == 2 * Pow2(j - 3); }
    if j > 3 { assert Pow2(j - 3) == 2 * Pow2(j - 4); }
    if j > 4 { assert Pow2(j - 4) == 2 * Pow2(j - 5); }
  }

  /**
   * The round constant lane that iota XORs in: bit 2^j - 1 is rc(j + 7 i_r)
   * for j in 0..l (l excluded), every other bit false.
   */
  function IotaMask(ir: int): (r: Lane)
    ensures |r| == W
  {
    seq(W, z requires 0 <= z < W => var j := MaskIndex(z); if j >= 0 then Rc(j + 7 * ir) else false)
  }

  /** The mask holds rc(j + 7 i_r) at bit 2^j - 1 for every j < l. */
  lemma IotaMaskAt(ir: int, j: nat)
    requires j < L
    ensures Pow2(j) - 1 < W && IotaMask(ir)[Pow2(j) - 1] == Rc(j + 7 * ir)
  {
    MaskIndexOfPow2(j, 0);
  }

  /**
   * Every other bit of the mask is false, in particular bit w - 1 = 2^l - 1,
   * which the loop bound j < l never reaches.
   */
  lemma IotaMaskElsewhere(ir: int, z: int)
    requires 0 <= z < W
    requires forall j: nat :: j < L ==> z != Pow2(j) - 1
    ensures !IotaMask(ir)[z] && !IotaMask(ir)[W - 1]
  {
    var j := MaskIndex(z);
    if j >= 0 {
      MaskIndexOfPow2(j, z);
      assert z == Pow2(j) - 1;
      assert false;
    }
  }

  /** iota: the round constant XORed into lane (2, 2), every other lane untouched. */
  function Iota(s: State, ir: int): (r: State)
    requires WellFormed(s)
    ensures WellFormed(r)
  {
    s[2 := s[2][2 := XorLanes(s[2][2], IotaMask(ir))]]
  }

  /** Applying iota twice with the same round index restores the state. */
  lemma IotaInvolutive(s: State, ir: int)
    requires WellFormed(s)
    ensures Iota(Iota(s, ir), ir) == s
  {
    var t := Iota(Iota(s, ir), ir);
    assert t[2][2] == s[2][2];
    assert t[2] == s[2];
  }

  /**
   * `iota`: builds r_c with bit 2^j - 1 := rc(j + 7 i_r) for j < l, then
   * XORs it bit by bit into lane (2, 2) of the state.
   */
  method ComputeIota(state: State, ir: int) returns (a: State)
    requires WellFormed(state)
    ensures WellFormed(a)
    ensures forall x, y :: 0 <= x < 5 && 0 <= y < 5 && (x, y) != (2, 2) ==> a[x][y] == state[x][y]
    ensures a[2][2] == XorLanes(state[2][2], IotaMask(ir))
    ensures a == Iota(state, ir)
  {
    var rc := ZeroLane();
    for j := 0 to L
      invariant |rc| == W
      invariant forall z :: 0 <= z < W ==> rc[z] == if 0 <= MaskIndex(z) < j then Rc(MaskIndex(z) + 7 * ir) else false
    {
      MaskIndexOfPow2(j, 0);
      forall z | 0 <= z < W && MaskIndex(z) == j ensures z == Pow2(j) - 1 {
        MaskIndexOfPow2(j, z);
      }
      var bit := ComputeRc(j + 7 * ir);
      rc := rc[Pow2(j) - 1 := bit];
    }
    assert rc == IotaMask(ir);
    var lane := state[2][2];
    for z := 0 to W
      invariant |lane| == W
      invariant forall z' :: 0 <= z' < W ==> lane[z'] == if z' < z then state[2][2][z'] != rc[z'] else state[2][2][z']
    {
      lane := lane[z := lane[z] != rc[z]];
    }
    assert lane == XorLanes(state[2][2], rc);
    a := state[2 := state[2][2 := lane]];
  }

  // rnd

  /** `rnd`: one round as the source runs it, which applies theta alone and ignores i_r. */
  function Rnd(s: State, ir: int): (r: State)
    requires WellFormed(s)
    ensures WellFormed(r)
  {
    Theta(s)
  }

  /** The round does not depend on its index. */
  lemma RndIgnoresIndex(s: State, i: int, j: int)
    requires WellFormed(s)
    ensures Rnd(s, i) == Rnd(s, j)
  {
  }

  method ApplyRound(state: State, ir: int) returns (a: State)
    requires WellFormed(state)
    ensures a == Rnd(state, ir)
    ensures forall x, y, z :: 0 <= x < 5 && 0 <= y < 5 && 0 <= z < W ==>
      a[x][y][z] == (state[x][y][z] != ThetaD(state, (x + 3) % 5, z))
  {
    a := ComputeTheta(state);
  }
}
