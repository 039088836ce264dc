/**
 Powers, quotients and remainders that byte formats rest on.
 */
module Arith {
  const TWO_64 := 0x1_0000_0000_0000_0000

  function Pow2(k: nat): (p: nat)
    ensures p > 0
  {
    if k == 0 then 1 else 2 * Pow2(k - 1)
  }

  lemma Quotient(x: nat, p: nat, q: int, r: nat)
    requires p > 0 && x == p * q + r && r < p
    ensures x % p == r
  {
    var d := x / p - q;
    assert x == p * (x / p) + x % p;
    assert p * d == r - x % p;
    assert d > 0 ==> p * d >= p;
    assert d < 0 ==> p * d <= 0 - p;
  }

  lemma LowByte(x: nat, m: nat)
    requires m > 0
    ensures x % (0x100 * m) == x / 0x100 % m * 0x100 + x % 0x100
  {
    var h, l := x / 0x100, x % 0x100;
    var k, r := h / m, h % m;
    assert h == m * k + r;
    assert x == 0x100 * (m * k + r) + l == 0x100 * m * k + (r * 0x100 + l);
    Quotient(x, 0x100 * m, k, r * 0x100 + l);
  }

  lemma Shifts(x: nat)
    ensures x / 0x100 / 0x100 == x / 0x1_0000 && x / 0x1_0000 / 0x100 == x / 0x100_0000
  {
  }

  lemma QuotientIs(x: nat, p: nat, q: int, r: nat)
    requires p > 0 && x == p * q + r && r < p
    ensures x / p == q
  {
    Quotient(x, p, q, r);
    assert p * (x / p) == p * q;
  }

  lemma ShiftTwice(x: nat, p: nat)
    requires p > 0
    ensures x / 0x100 / p == x / (0x100 * p)
  {
    var h, l := x / 0x100, x % 0x100;
    var k, r := h / p, h % p;
    assert h == p * k + r;
    assert x == 0x100 * (p * k + r) + l == 0x100 * p * k + (r * 0x100 + l);
    QuotientIs(x, 0x100 * p, k, r * 0x100 + l);
  }
}
