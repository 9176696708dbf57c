/** Division, remainder and multiples. */
module Arithmetic {
  lemma {:induction false} MulMonotone(a: int, b: int, d: nat)
    requires a <= b
    ensures a * d <= b * d
  {
  }

  lemma {:induction false} DivBound(x: nat, d: nat)
    requires d >= 1
    ensures 0 <= x / d <= x
  {
    assert x == x / d * d + x % d;
    if x / d > x {
      MulMonotone(1, d, x / d);
    }
    if x / d < 0 {
      MulMonotone(x / d, -1, d);
    }
  }

  /** Quotient and remainder are determined by their defining equation. */
  lemma {:induction false} DivModUnique(x: int, d: nat, q: int, r: int)
    requires 0 <= r < d && x == q * d + r
    ensures x / d == q && x % d == r
  {
    if x / d < q {
      MulMonotone(x / d + 1, q, d);
    } else if x / d > q {
      MulMonotone(q + 1, x / d, d);
    }
  }

  /** A multiple of `d` that is more than `q * d` is at least the next multiple. */
  lemma {:induction false} NextMultiple(q: int, p: int, d: nat)
    requires d > 0 && q * d < p * d
    ensures (q + 1) * d <= p * d
  {
    if p <= q {
      MulMonotone(p, q, d);
    }
    MulMonotone(q + 1, p, d);
  }

  /** Multiples are ordered as their factors are. */
  lemma {:induction false} MulOrder(a: int, b: int, d: nat)
    requires d > 0
    ensures a * d <= b * d <==> a <= b
  {
    if a <= b {
      MulMonotone(a, b, d);
    } else {
      MulMonotone(b + 1, a, d);
    }
  }

  /** The quotient is the largest number whose multiple is not beyond. */
  lemma {:induction false} FloorExact(a: nat, k: int, d: nat)
    requires d > 0
    ensures k * d <= a <==> k <= a / d
  {
    var q := a / d;
    assert q * d <= a < (q + 1) * d;
    if k <= q {
      MulMonotone(k, q, d);
    } else {
      MulMonotone(q + 1, k, d);
    }
  }
}
