/** Positions in a ring: remainders by a length that is not a constant. */
module Rings {

  lemma QuotientUnique(m: nat, q: int, r: int, q': int, r': int)
    requires m * q + r == m * q' + r' && 0 <= r < m && 0 <= r' < m
    ensures q == q' && r == r'
  {
    if q < q' {
      AtLeastOnce(m, q' - q);
    } else if q > q' {
      AtLeastOnce(m, q - q');
    }
  }

  lemma AtLeastOnce(m: nat, d: int)
    requires d >= 1
    ensures m * d >= m
  {
    assert m * d == m + m * (d - 1);
  }

  lemma ModShift(q: int, r: int, m: nat)
    requires m > 0
    ensures (q * m + r) % m == r % m
  {
    var x := q * m + r;
    assert x == m * (x / m) + x % m && r == m * (r / m) + r % m;
    assert x == m * (q + r / m) + r % m;
    QuotientUnique(m, x / m, x % m, q + r / m, r % m);
  }

  lemma ModAdd(a: int, b: int, m: nat)
    requires m > 0
    ensures (a % m + b) % m == (a + b) % m
  {
    var q := a / m;
    assert a + b == q * m + (a % m + b);
    ModShift(q, a % m + b, m);
  }

  lemma SmallMod(j: nat, m: nat)
    requires j < m
    ensures j % m == j
  {
  }

  lemma NextIndex(n: nat, m: nat)
    requires m > 0
    ensures (n + 1) % m == if n % m + 1 == m then 0 else n % m + 1
  {
    ModAdd(n, 1, m);
    if n % m + 1 < m {
      SmallMod(n % m + 1, m);
    }
  }

  /** Less than one round apart means different places. */
  lemma ModDistinct(i: nat, j: nat, m: nat)
    requires i < j < i + m
    ensures i % m != j % m
  {
    var r, d := i % m, j - i;
    ModAdd(i, d, m);
    if r + d < m {
      SmallMod(r + d, m);
    } else {
      ModShift(1, r + d - m, m);
      SmallMod(r + d - m, m);
    }
  }
}
