/** What several modules need: options, the smaller and the larger of two numbers, and
    two facts about remainders. */
module Common {

  datatype Option<+T> = None | Some(value: T)

  function Min(a: nat, b: nat): nat { if a < b then a else b }

  function Max(a: int, b: int): int { if a < b then b else a }

  /** A number written with a quotient and a remainder has these. */
  lemma Divided(m: nat, q: int, r: nat)
    requires r < m
    ensures (m * q + r) % m == r && (m * q + r) / m == q
  {
    var x := m * q + r;
    var k := x / m - q;
    assert m * k == r - x % m;
    assert 0 - m < m * k < m;
    assert k >= 1 ==> m * k >= m;
    assert k <= -1 ==> m * k + m <= 0;
  }

  /** Dividing twice is dividing by the product. */
  lemma DividedTwice(n: nat, m: nat, p: nat)
    requires m > 0 && p > 0
    ensures m * p > 0 && n / m / p == n / (m * p)
  {
    var q, r := n / m, n % m;
    var a, b := q / p, q % p;
    Split(m, p, a, b);
    assert n == (m * p) * a + (m * b + r);
    Divided(m * p, a, m * b + r);
  }

  lemma Split(m: nat, p: nat, a: nat, b: nat)
    requires m > 0 && b < p
    ensures m * (p * a + b) == (m * p) * a + m * b
    ensures 0 <= m * b && m * b + m <= m * p && m * p > 0
  {
    Distributes(m, p * a, b);
    Associates(m, p, a);
    Distributes(m, b, p - b);
    Scales(m, p - b);
    Scales(m, p);
  }

  lemma Distributes(m: int, x: int, y: int)
    ensures m * (x + y) == m * x + m * y
  {
  }

  lemma Associates(m: int, p: int, a: int)
    ensures m * (p * a) == (m * p) * a
  {
  }

  lemma Scales(m: nat, x: nat)
    ensures m * x >= 0 && (x > 0 ==> m * x >= m)
  {
  }

  /** Multiples do not change a remainder. */
  lemma ModOfSum(a: int, k: int, m: nat)
    requires m > 0
    ensures (a + k * m) % m == a % m
  {
    var q, r := a / m, a % m;
    assert a + k * m == m * (q + k) + r;
    Divided(m, q + k, r);
  }
}
