/** Multiplication and division facts, stated over plain numbers so that each costs
    the solver little. */
module Arithmetic {

  lemma Assoc(x: int, y: int, z: int)
    ensures (x * y) * z == x * (y * z)
  {}

  lemma Distribute(x: int, y: int, z: int)
    ensures (x + y) * z == x * z + y * z
  {}

  lemma Monotone(x: int, y: int, z: nat)
    requires x <= y
    ensures x * z <= y * z
  {}

  lemma Positive(x: nat, y: nat)
    requires x > 0 && y > 0
    ensures x * y > 0
  {}

  lemma BelowProduct(x: nat, m: nat, w: nat)
    requires x < m && w > 0
    ensures x * w <= m * w - w
  {
    Monotone(x + 1, m, w);
    Distribute(x, 1, w);
  }

  lemma Scale(x: int, y: int, m: int, w: int)
    ensures (x * m + y) * w == x * (m * w) + y * w
  {
    Distribute(x * m, y, w);
    Assoc(x, m, w);
  }

  /** Division with remainder has one answer. */
  lemma DivUnique(v: nat, d: nat, q: nat, r: nat)
    requires d > 0 && v == d * q + r && r < d
    ensures v / d == q && v % d == r
  {
    var q' := v / d;
    DivMod(v, d);
    if q' < q {
      Monotone(q' + 1, q, d);
      Distribute(q', 1, d);
    } else if q < q' {
      Monotone(q + 1, q', d);
      Distribute(q, 1, d);
    }
  }

  lemma DivMod(v: nat, d: nat)
    requires d > 0
    ensures v == d * (v / d) + v % d && 0 <= v % d < d
  {}

  lemma TwoLevels(v: nat, a: nat, b: nat, q: nat, s: nat, r: nat, t: nat)
    requires v == a * q + s && q == b * r + t
    ensures v == (a * b) * r + (a * t + s)
  {
    Distribute(b * r, t, a);
    Assoc(a, b, r);
  }

  /** Reducing modulo a multiple of d first does not change the remainder by d. */
  lemma ModOfMod(x: nat, d: nat, e: nat, q: nat, v: nat)
    requires d > 0 && e > 0 && x == d * q + v && v < d
    ensures d * e > 0 && x % (d * e) % d == v
  {
    Positive(d, e);
    DivMod(q, e);
    var k, r := q / e, q % e;
    TwoLevels(x, d, e, q, v, k, r);
    BelowProduct(r, e, d);
    DivUnique(x, d * e, k, d * r + v);
    DivUnique(d * r + v, d, r, v);
  }
}
