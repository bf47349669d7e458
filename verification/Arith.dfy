/** Products, quotients and remainders: the nonlinear steps that the other proofs take one at a time. */
module Arith {

  lemma {:induction false} MulMono(x: int, y: int, z: nat)
    requires x <= y
    ensures x * z <= y * z
  {
  }

  lemma {:induction false} MulCommutes(x: int, y: int)
    ensures x * y == y * x
  {
  }

  lemma {:induction false} ProductNonNegative(x: int, y: int)
    ensures x >= 0 && y >= 0 ==> x * y >= 0
  {
  }

  lemma {:induction false} QuotientUnique(q: int, r: int, q': int, r': int, d: nat)
    requires 0 <= r < d && 0 <= r' < d && q * d + r == q' * d + r'
    ensures q == q'
  {
    assert (q + 1) * d == q * d + d && (q' + 1) * d == q' * d + d;
    if q < q' {
      MulMono(q + 1, q', d);
    } else if q' < q {
      MulMono(q' + 1, q, d);
    }
  }

  lemma {:induction false} DivModBack(x: nat, d: nat)
    requires d > 0
    ensures x == (x / d) * d + x % d
  {
  }

  lemma {:induction false} DivModOf(q: nat, r: nat, d: nat)
    requires r < d
    ensures q * d >= 0 && (q * d + r) / d == q && (q * d + r) % d == r
  {
    ProductNonNegative(q, d);
    var x := q * d + r;
    assert x == (x / d) * d + x % d;
    QuotientUnique(x / d, x % d, q, r, d);
  }

  lemma {:induction false} QuotientNonNegative(x: nat, d: nat)
    requires d > 0
    ensures x / d >= 0
  {
  }

  lemma {:induction false} QuotientBounds(x: nat, d: nat)
    requires d > 0
    ensures 0 <= x / d && (x / d) * d <= x < (x / d) * d + d
  {
    assert x == (x / d) * d + x % d;
  }

  lemma {:induction false} QuotientPositive(x: nat, d: nat)
    requires 0 < d <= x
    ensures x / d >= 1 && (x / d) * d <= x
  {
    var q := x / d;
    assert x == q * d + x % d;
    if q <= 0 {
      MulMono(q, 0, d);
    }
  }

  lemma {:induction false} QuotientLe(x: nat, d: nat)
    requires d > 0
    ensures 0 <= x / d <= x
  {
    if d <= x {
      QuotientPositive(x, d);
      MulMono(1, d, x / d);
      MulCommutes(d, x / d);
    }
  }

  lemma {:induction false} SmallMod(x: nat, d: nat)
    requires x < d
    ensures x % d == x
  {
  }

  lemma {:induction false} AddMultiple(x: nat, d: nat)
    requires x < d
    ensures (x + d) % d == x
  {
  }

  lemma {:induction false} Regroup(x: int, y: int, z: int)
    ensures (x * y) * z == x * (y * z) == (x * z) * y
  {
  }

  // ---- strides

  lemma {:induction false} FirstOfStride(t: nat, d: nat)
    requires t < d
    ensures t % d == t && forall p: nat :: p < t ==> p % d != t
  {
    forall p: nat | p <= t
      ensures p % d == p
    {
      SmallMod(p, d);
    }
  }

  /** One stride further the residue is the same, and nowhere in between. */
  lemma {:induction false} NextOfStride(x: nat, d: nat)
    requires d > 0
    ensures (x + d) % d == x % d
    ensures forall p: nat :: x < p < x + d ==> p % d != x % d
  {
    ModShift(x, d, d);
    forall p: nat | x < p < x + d
      ensures p % d != x % d
    {
      ModShift(x, p - x, d);
    }
  }

  lemma {:induction false} ModShift(x: nat, y: nat, d: nat)
    requires y <= d && d > 0
    ensures y == d ==> (x + y) % d == x % d
    ensures 0 < y < d ==> (x + y) % d != x % d
  {
    var a, r := x / d, x % d;
    var a', r' := (x + y) / d, (x + y) % d;
    assert x == a * d + r && x + y == a' * d + r' && (a + 1) * d == a * d + d && (a' + 1) * d == a' * d + d;
    assert (a + 2) * d == a * d + d + d;
    if a' < a {
      MulMono(a' + 1, a, d);
    } else if a' > a + 1 {
      MulMono(a + 2, a', d);
    }
  }
}
