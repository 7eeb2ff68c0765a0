/** Multiplication and remainder facts the other modules lean on. */
module Arith {

  lemma {:induction false} Multiples(m: nat, n: nat, d: nat)
    requires m < n
    ensures m * d + d <= n * d
    decreases n
  {
    assert n * d == (n - 1) * d + d;
    if m + 1 < n {
      Multiples(m, n - 1, d);
    }
  }

  lemma MultipleMod(q: nat, d: nat)
    requires d > 0
    ensures (q * d) % d == 0
  {
    var y := q * d;
    var t := q - y / d;
    assert y == d * (y / d) + y % d;
    assert t * d == y % d by {
      assert t * d == q * d - (y / d) * d;
    }
    if t >= 1 {
      Multiples(0, t, d);
    }
  }

  lemma Remainder(a: nat, i: nat, d: nat)
    requires d > 0 && a % d == 0
    ensures (a + i * d) % d == 0
  {
    var q := a / d;
    assert a == d * q;
    assert a + i * d == (q + i) * d;
    MultipleMod(q + i, d);
  }

  lemma Divides(p: nat, d: nat, a: nat)
    requires d > 0 && a > 0 && p % d == 0 && d % a == 0
    ensures p % a == 0
  {
    var q, r := p / d, d / a;
    assert p == d * q && d == a * r;
    assert p == (q * r) * a;
    MultipleMod(q * r, a);
  }

  lemma SmallMod(x: nat, d: nat)
    requires x < d
    ensures x % d == x
  {
    assert x == d * (x / d) + x % d;
    if x / d >= 1 {
      Multiples(0, x / d, d);
    }
  }

  lemma ModIs(q: nat, r: nat, d: nat)
    requires r < d
    ensures (d * q + r) % d == r && (d * q + r) / d == q
  {
    var x := d * q + r;
    var k := x / d - q;
    assert x == d * (x / d) + x % d;
    assert d * (x / d) == d * q + d * k;
    assert k * d == r - x % d && (-k) * d == -(k * d);
    if k >= 1 {
      Multiples(0, k, d);
    } else if k <= -1 {
      Multiples(0, -k, d);
    }
  }
}
