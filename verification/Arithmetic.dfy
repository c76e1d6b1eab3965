/** Division and remainder of numbers, by multiplication. */
module Arithmetic {

  function Product(a: nat, b: nat): nat {
    a * b
  }

  lemma MultipleAtLeast(m: int, d: int)
    requires m > 0 && d > 0
    ensures m * d >= m
  {
  }

  lemma DivisionUnique(v: int, m: int, k: int, r: int)
    requires m > 0 && v == m * k + r && 0 <= r < m
    ensures v / m == k && v % m == r
  {
    var d, e := v / m - k, k - v / m;
    assert v == m * (v / m) + v % m;
    assert m * (v / m) == m * d + m * k;
    assert m * k == m * e + m * (v / m);
    if d > 0 {
      MultipleAtLeast(m, d);
    } else if e > 0 {
      MultipleAtLeast(m, e);
    }
  }

  lemma ModuloOfSum(a: nat, b: nat, m: nat)
    requires m > 0
    ensures (a % m + b) % m == (a + b) % m
  {
    var q, t := a / m, a % m + b;
    assert a + b == m * q + t;
    assert t == m * (t / m) + t % m;
    assert a + b == m * (q + t / m) + t % m;
    DivisionUnique(a + b, m, q + t / m, t % m);
  }

  lemma DistinctModulo(a: nat, b: nat, m: nat)
    requires a < b < a + m
    ensures a % m != b % m
  {
    if a % m == b % m {
      assert b - a == m * (b / m) - m * (a / m);
      assert m * (b / m - a / m) == m * (b / m) - m * (a / m);
      MultipleAtLeast(m, b / m - a / m);
    }
  }

  lemma SmallModulo(v: nat, m: nat)
    requires 0 < m && v <= m
    ensures v % m == if v == m then 0 else v
  {
  }

  lemma DivideOutDigit(v: nat, m: nat)
    requires m > 0
    ensures v % (256 * m) == 256 * (v / 256 % m) + v % 256
  {
    var q, r := v / 256, v % 256;
    var k, s := q / m, q % m;
    assert v == 256 * (m * k + s) + r;
    assert v == (256 * m) * k + (256 * s + r);
    assert 0 <= 256 * s + r < 256 * m;
    DivisionUnique(v, 256 * m, k, 256 * s + r);
  }
}
