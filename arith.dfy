/** Facts of integer arithmetic that the other modules share: the uniqueness of Euclidean
    division, splitting a remainder at its low byte, and multiplication by a positive
    factor. */
module Arith {

  /** Division by a positive modulus is determined by any decomposition x == q * m + r
      with 0 <= r < m. */
  lemma DivModUnique(x: int, m: int, q: int, r: int)
    requires m > 0 && x == q * m + r && 0 <= r < m
    ensures x / m == q && x % m == r
  {
    var q', r' := x / m, x % m;
    var d := q - q';
    assert d * m == r' - r by {
      assert q * m - q' * m == (q - q') * m;
    }
    if d >= 1 {
      MulAtLeast(d, m);
    } else if d <= -1 {
      MulAtLeast(-d, m);
    }
  }

  /** A positive multiple of m is at least m. */
  lemma MulAtLeast(d: int, m: int)
    requires d >= 1 && m > 0
    ensures d * m >= m
  {
    assert d * m == (d - 1) * m + m;
    assert (d - 1) * m >= 0;
  }

  /** Reducing modulo 256 * p splits into the low byte and the rest reduced modulo p. */
  lemma ModSplit(v: nat, p: nat)
    requires p > 0
    ensures v % (256 * p) == v % 256 + 256 * ((v / 256) % p)
  {
    var q, r := v / 256, v % 256;
    var k, s := q / p, q % p;
    assert v == 256 * q + r;
    assert q == p * k + s;
    assert v == k * (256 * p) + (256 * s + r) by {
      assert 256 * q == 256 * (p * k) + 256 * s;
    }
    assert 256 * s + r < 256 * p by {
      assert s <= p - 1;
      assert 256 * s <= 256 * p - 256;
    }
    DivModUnique(v, 256 * p, k, 256 * s + r);
  }

  /** Multiplying by a positive factor keeps the order. */
  lemma MulMonotone(a: int, c: int, w: int)
    requires a <= c && w > 0
    ensures a * w <= c * w
  {
    assert c * w - a * w == (c - a) * w;
  }
}
