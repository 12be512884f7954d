// Facts of integer multiplication, division and remainder that the
// solver does not find unaided.

module Arith {

  lemma DivMod(a: nat, d: nat)
    requires d > 0
    ensures a == (a / d) * d + a % d && 0 <= a % d < d
  {
  }

  lemma MulSign(x: int, d: nat)
    requires d > 0
    ensures x >= 1 ==> x * d >= d
    ensures x <= -1 ==> x * d + d <= 0
  {
  }

  /** The quotient of naturals is a natural. */
  lemma DivNat(a: nat, d: nat)
    requires d > 0
    ensures a / d >= 0
  {
  }

  /** Division is determined by quotient and remainder. */
  lemma DivUnique(a: nat, d: nat, q: nat, r: nat)
    requires d > 0 && a == q * d + r && r < d
    ensures a / d == q && a % d == r
  {
    DivMod(a, d);
    var q0, r0 := a / d, a % d;
    assert (q - q0) * d == r0 - r;
    MulSign(q - q0, d);
  }

  lemma DivOfMul(a: nat, d: nat)
    requires d > 0
    ensures (a * d) / d == a && (a * d) % d == 0
  {
    DivUnique(a * d, d, a, 0);
  }

  lemma MulMonoRight(a: nat, b: nat, c: nat)
    requires a <= b
    ensures a * c <= b * c
  {
    assert b * c == a * c + (b - a) * c;
  }

  lemma MulDistrib(a: nat, d: nat)
    ensures (a + 1) * d == a * d + d
  {
  }

  lemma MulAssoc(a: nat, b: nat, c: nat)
    ensures a * (b * c) == (a * b) * c
  {
  }

  /** (b + d - 1) / d is the least q with q * d >= b. */
  lemma CeilDiv(b: nat, d: nat)
    requires d > 0
    ensures var q := (b + d - 1) / d; b <= q * d < b + d
  {
    DivMod(b + d - 1, d);
  }

  lemma DivBounds(a: nat, d: nat)
    requires d > 0
    ensures (a / d) * d <= a < (a / d + 1) * d
  {
    DivMod(a, d);
    MulDistrib(a / d, d);
  }

  lemma DivLe(a: nat, d: nat)
    requires d > 0
    ensures a / d <= a
  {
    DivMod(a, d);
    MulMonoRight(1, d, a / d);
  }

  lemma LeDivLe(x: nat, y: nat)
    requires 2 * x <= y
    ensures x <= y / 2
  {
  }

  lemma MulMonoLeft(a: nat, b: nat, c: nat)
    requires b <= c
    ensures a * b <= a * c
  {
    MulMonoRight(b, c, a);
  }

  /** Adding a multiple of d does not change the remainder. */
  lemma ModAddMultiple(c: nat, r: nat, d: nat)
    requires d > 0
    ensures (c * d + r) % d == r % d
  {
    DivMod(r, d);
    assert c * d + r == (c + r / d) * d + r % d;
    DivUnique(c * d + r, d, c + r / d, r % d);
  }

  /** Reducing modulo a multiple of d first does not change the remainder
      modulo d. */
  lemma ModOfMod(x: nat, k: nat, d: nat)
    requires d > 0 && k > 0
    ensures (x % (k * d)) % d == x % d
  {
    DivMod(x, k * d);
    var q := x / (k * d);
    MulAssoc(q, k, d);
    ModAddMultiple(q * k, x % (k * d), d);
  }
}
