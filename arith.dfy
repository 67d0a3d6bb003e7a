/** Facts about multiplication, division and remainder with a variable divisor. */
module Arith {

  lemma MulMonotone(a: nat, b: nat, c: nat)
    requires b <= c
    ensures a * b <= a * c
  {
  }

  lemma MulAtLeast(k: int, n: int)
    requires k >= 1 && n > 0
    ensures k * n >= n
  {
    MulMonotone(n, 1, k);
  }

  /** Division with remainder has a unique quotient and remainder. */
  lemma DivModUnique(a: int, n: int, q: int, r: int)
    requires n > 0 && 0 <= r < n && a == q * n + r
    ensures a / n == q && a % n == r
  {
    var q', r' := a / n, a % n;
    assert (q - q') * n == r' - r;
    if q - q' >= 1 {
      MulAtLeast(q - q', n);
    } else if q' - q >= 1 {
      MulAtLeast(q' - q, n);
    }
  }

  lemma ModMultiple(k: int, n: int)
    requires n > 0
    ensures (k * n) % n == 0 && (k * n) / n == k
  {
    DivModUnique(k * n, n, k, 0);
  }

  /** Adding a multiple of n does not change the remainder. */
  lemma ModShift(a: int, k: int, n: int)
    requires n > 0
    ensures (a + k * n) % n == a % n
  {
    var q, r := a / n, a % n;
    assert a + k * n == (q + k) * n + r;
    DivModUnique(a + k * n, n, q + k, r);
  }

  /** Block i of a string cut into blocks of n bits fits in the string. */
  lemma BlockBound(len: nat, n: nat, i: nat)
    requires n > 0 && i < len / n
    ensures i * n + n == (i + 1) * n <= len
  {
    MulMonotone(n, i + 1, len / n);
    assert (len / n) * n + len % n == len;
  }

  /**
   * A length that is a whole number of blocks of 16 words of ws units each
   * holds total / ws words, which split into total / (16 ws) blocks.
   */
  lemma WordsPerBlock(total: nat, ws: nat)
    requires ws > 0 && total % (16 * ws) == 0
    ensures (total / ws) % 16 == 0 && (total / ws) / 16 == total / (16 * ws)
  {
    var q := total / (16 * ws);
    assert total == q * (16 * ws) + total % (16 * ws);
    assert total == (16 * q) * ws;
    DivModUnique(total, ws, 16 * q, 0);
    ModMultiple(q, 16);
  }
}
