/** Floor division of natural numbers by a variable divisor, in small steps. */
module Division {

  lemma Floor(a: nat, r: nat)
    requires r > 0
    ensures a / r * r <= a < (a / r + 1) * r
  {
  }

  lemma Scaled(a: int, b: int, r: nat)
    requires a <= b
    ensures a * r <= b * r
  {
  }

  lemma Distribute(a: int, b: int, r: int)
    ensures (a + b) * r == a * r + b * r
  {
  }

  lemma FloorAtMost(a: nat, r: nat, q: nat)
    requires r > 0 && a < (q + 1) * r
    ensures a / r <= q
  {
    Floor(a, r);
  }

  lemma FloorAtLeast(a: nat, r: nat, q: nat)
    requires r > 0 && q * r <= a
    ensures q <= a / r
  {
    Floor(a, r);
  }

  lemma FloorIs(a: nat, r: nat, q: nat)
    requires r > 0 && q * r <= a < (q + 1) * r
    ensures a / r == q
  {
    FloorAtMost(a, r, q);
    FloorAtLeast(a, r, q);
  }

  /** The inequality behind the "+ 1" of max_delay: floors of a sum exceed the sum of floors by at most one. */
  lemma FloorSum(a: nat, b: nat, r: nat)
    requires r > 0
    ensures (a + b) / r <= a / r + b / r + 1
  {
    var p, q := a / r, b / r;
    assert a < (p + 1) * r && b < (q + 1) * r by {
      Floor(a, r);
      Floor(b, r);
    }
    Distribute(p + 1, q + 1, r);
    assert (p + 1) + (q + 1) == (p + q + 1) + 1;
    FloorAtMost(a + b, r, p + q + 1);
  }

  lemma FloorShift(q: nat, a: nat, r: nat)
    requires r > 0
    ensures (q * r + a) / r == q + a / r
  {
    var d := a / r;
    assert d * r <= a < (d + 1) * r by { Floor(a, r); }
    Distribute(q, d, r);
    Distribute(q, d + 1, r);
    assert q + (d + 1) == (q + d) + 1;
    FloorIs(q * r + a, r, q + d);
  }

  lemma FloorMonotone(a: nat, b: nat, r: nat)
    requires r > 0 && a <= b
    ensures a / r <= b / r
  {
    var q := a / r;
    assert q * r <= b by { Floor(a, r); }
    FloorAtLeast(b, r, q);
  }

  lemma FloorSmall(a: nat, r: nat)
    requires r > 0
    ensures a / r <= a
  {
    Scaled(1, r, a);
    FloorMonotone(a, r * a, r);
    FloorShift(a, 0, r);
  }

  lemma Remainder(a: nat, r: nat)
    requires r > 0
    ensures a == a / r * r + a % r && 0 <= a % r < r
  {
  }

  lemma ModShift(a: nat, k: nat, r: nat)
    requires r > 0
    ensures (a + k * r) % r == a % r
  {
    FloorShift(k, a, r);
    Remainder(a, r);
    Remainder(a + k * r, r);
    Distribute(k, a / r, r);
  }
}
