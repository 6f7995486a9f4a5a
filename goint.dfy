/** Go's int64 and the integer division facts the formatters rely on. */
module GoInt {
  const Int64Min: int := -0x8000_0000_0000_0000
  const Int64Max: int := 0x7fff_ffff_ffff_ffff

  /** Go's int64 (and time.Duration, which counts nanoseconds in an int64). */
  type int64 = x: int | Int64Min <= x <= Int64Max

  /** Integer division is pinned down by quotient and remainder. */
  lemma DivUnique(b: int, m: int, q: int, r: int)
    requires m > 0 && 0 <= r < m && b == m * q + r
    ensures b / m == q && b % m == r
  {
    var q0, r0 := b / m, b % m;
    assert m * (q0 - q) == r - r0;
    SmallMultiple(m, q0 - q);
  }

  /** The only multiple of m strictly between -m and m is zero. */
  lemma SmallMultiple(m: int, x: int)
    requires m > 0 && -m < m * x < m
    ensures x == 0
  {
    MulSign(m, x);
  }

  lemma MulSign(m: int, x: int)
    requires m > 0
    ensures x >= 1 ==> m * x >= m
    ensures x <= -1 ==> m * x <= -m
  {
    if x >= 1 {
      assert m * x == m + m * (x - 1);
    } else if x <= -1 {
      assert m * x == -m + m * (x + 1);
    }
  }

  /** Dividing twice is dividing by the product. */
  lemma DivDiv(b: nat, d: int, k: int)
    requires d > 0 && k > 0
    ensures (b / d) / k == b / (d * k)
  {
    var q, r := b / d, b % d;
    var q2, r2 := q / k, q % k;
    assert b == d * q + r;
    assert q == k * q2 + r2;
    Regroup(b, d, k, q2, r2, r);
    DivUnique(b, d * k, q2, d * r2 + r);
  }

  lemma Regroup(b: int, d: int, k: int, q2: int, r2: int, r: int)
    requires d > 0 && k > 0 && 0 <= r < d && 0 <= r2 < k
    requires b == d * (k * q2 + r2) + r
    ensures b == (d * k) * q2 + (d * r2 + r)
    ensures 0 <= d * r2 + r < d * k
  {
    assert d * (k * q2 + r2) == (d * k) * q2 + d * r2;
    assert d * r2 <= d * (k - 1);
  }

  /** A quotient of at least k means the dividend is at least k times the divisor. */
  lemma DivAtLeast(b: nat, d: int, k: nat)
    requires d > 0 && b / d >= k
    ensures b >= k * d
  {
    assert b == d * (b / d) + b % d;
    assert d * (b / d) >= d * k;
  }
}
