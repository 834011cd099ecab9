/** Remainders of sums and products, for moduli that are not fixed. */
module Modular {

  lemma MulPositive(k: int, m: int)
    requires m > 0
    ensures k >= 1 ==> m * k >= m
    ensures k <= -1 ==> m * k <= -m
  {}

  lemma Unique(x: int, q: int, r: int, m: int)
    requires x == m * q + r && 0 <= r < m
    ensures x % m == r && x / m == q
  {
    var d := q - x / m;
    assert x == m * (x / m) + x % m;
    assert m * q - m * (x / m) == m * d;
    MulPositive(d, m);
  }

  lemma PlusMultiple(x: int, k: int, m: int)
    requires m > 0
    ensures (x + m * k) % m == x % m
  {
    assert x == m * (x / m) + x % m;
    assert x + m * k == m * (x / m + k) + x % m;
    Unique(x + m * k, x / m + k, x % m, m);
  }

  lemma MulLeft(a: int, b: int, m: int)
    requires m > 0
    ensures ((a % m) * b) % m == (a * b) % m
  {
    var q, r := a / m, a % m;
    assert a == m * q + r;
    assert a * b == r * b + m * (q * b) by {
      assert (m * q + r) * b == (m * q) * b + r * b;
      assert (m * q) * b == m * (q * b);
    }
    PlusMultiple(r * b, q * b, m);
  }

  lemma MulRight(a: int, b: int, m: int)
    requires m > 0
    ensures (a * (b % m)) % m == (a * b) % m
  {
    MulLeft(b, a, m);
    assert a * (b % m) == (b % m) * a && a * b == b * a;
  }

  lemma AddLeft(a: int, b: int, m: int)
    requires m > 0
    ensures (a % m + b) % m == (a + b) % m
  {
    PlusMultiple(a % m + b, a / m, m);
    assert a + b == (a % m + b) + m * (a / m);
  }

  lemma Scaled(a: int, b: int, w: int)
    ensures (a + b) * w == a * w + b * w
    ensures w * (a + b) == w * a + w * b
  {}

  lemma MulAssoc(a: int, b: int, c: int)
    ensures a * (b * c) == (a * b) * c
  {}

  lemma MulSwap(a: int, b: int, c: int)
    ensures (a * b) * c == (a * c) * b
  {}

  lemma MulOrder(a: int, b: int, c: nat)
    requires a <= b
    ensures a * c <= b * c
  {}

  lemma Product(a: nat, b: nat)
    ensures a * b >= 0
  {
    MulOrder(0, a, b);
  }

  lemma Negated(a: int, b: int)
    ensures (-a) * b == -(a * b)
  {}
}
