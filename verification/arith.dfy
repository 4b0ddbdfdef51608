/** Facts about truncating division used by the frame accounting. */
module Arith {

  lemma {:induction false} MulMonotone(x: nat, y: nat, d: nat)
    requires x <= y
    ensures x * d <= y * d
  {
    if d > 0 {
      MulMonotone(x, y, d - 1);
      assert x * d == x * (d - 1) + x;
      assert y * d == y * (d - 1) + y;
    }
  }

  /** Multiplying both sides of a strict inequality by a positive factor. */
  lemma MulStrict(x: nat, y: nat, d: nat)
    ensures x < y ==> x * d + d <= y * d
  {
    if x < y {
      MulMonotone(x + 1, y, d);
      assert (x + 1) * d == x * d + d;
    }
  }

  lemma DivUnique(a: nat, d: nat, q: nat, r: nat)
    requires d > 0 && a == q * d + r && r < d
    ensures a / d == q && a % d == r
  {
    var q0 := a / d;
    var r0 := a % d;
    assert a == q0 * d + r0;
    MulStrict(q0, q, d);
    MulStrict(q, q0, d);
  }

  /** A quotient by a positive divisor is at most the dividend, and zero
      below the divisor. */
  lemma DivShrinks(a: nat, d: nat)
    requires d > 0
    ensures a / d <= a
    ensures a < d ==> a / d == 0
  {
    var q := a / d;
    assert a == q * d + a % d;
    MulMonotone(1, d, q);
    assert q <= d * q;
    if a < d {
      DivUnique(a, d, 0, a);
    }
  }

  /** Distributing a product over a quotient-remainder sum. */
  lemma Distrib(q: nat, c: nat, r: nat, b: nat)
    ensures (q * c + r) * b == q * (b * c) + r * b
  {
    assert (q * c + r) * b == q * c * b + r * b;
    assert q * c * b == q * (b * c);
  }

  /** A two-digit remainder in mixed radix stays below the product. */
  lemma MixedRemainder(r1: nat, r2: nat, b: nat, c: nat)
    requires r1 < b && r2 < c
    ensures r2 * b + r1 < b * c
  {
    MulMonotone(r2, c - 1, b);
    assert (c - 1) * b == c * b - b;
  }

  /** `(a / b) / c` is the quotient of `a` by `b * c`, and it brackets `a`. */
  lemma NestedDiv(a: nat, b: nat, c: nat)
    requires b > 0 && c > 0
    ensures a / b / c == a / (b * c)
    ensures (a / b / c) * (b * c) <= a < (a / b / c + 1) * (b * c)
    ensures a % (b * c) == 0 ==> (a / b / c) * (b * c) == a
  {
    var q1 := a / b;
    var r1 := a % b;
    var q := q1 / c;
    var r2 := q1 % c;
    var bc := b * c;
    assert a == q1 * b + r1;
    assert q1 == q * c + r2;
    Distrib(q, c, r2, b);
    assert a == q * bc + (r2 * b + r1);
    MixedRemainder(r1, r2, b, c);
    DivUnique(a, bc, q, r2 * b + r1);
    assert (q + 1) * bc == q * bc + bc;
  }

  /** Removing `k` whole frames of `d` bytes from `a` bytes removes exactly
      `k` frames from the quotient. */
  lemma DivSubMultiple(a: nat, k: nat, d: nat)
    requires d > 0 && k * d <= a
    ensures k <= a / d
    ensures (a - k * d) / d == a / d - k
  {
    var q := a / d;
    var r := a % d;
    assert a == q * d + r;
    MulStrict(q, k, d);
    assert a - k * d == (q - k) * d + r by {
      assert (q - k) * d == q * d - k * d;
    }
    DivUnique(a - k * d, d, q - k, r);
  }

  /** `k` frames of `d` bytes fit in `a` bytes when `k` does not exceed `a / d`. */
  lemma MulLeWhenLeQuot(a: nat, k: nat, d: nat)
    requires d > 0 && k <= a / d
    ensures k * d <= a
  {
    MulMonotone(k, a / d, d);
    assert a == (a / d) * d + a % d;
  }

  lemma DivOfMultiple(k: nat, d: nat)
    requires d > 0
    ensures (k * d) / d == k
  {
    DivUnique(k * d, d, k, 0);
  }
}
