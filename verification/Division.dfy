/** Unsigned division by a variable divisor. */
module Division {

  /** `a / d`, by repeated subtraction. */
  function Quot(a: nat, d: nat): (q: nat)
    requires d > 0
    ensures q * d <= a < q * d + d
  {
    if a < d then 0 else 1 + Quot(a - d, d)
  }

  lemma QuotIsDiv(a: nat, d: nat)
    requires d > 0
    ensures Quot(a, d) == a / d
  {
    QuotUnique(a, d, a / d);
  }

  /** A quotient is what its two bounds make it. */
  lemma QuotUnique(a: nat, d: nat, q: nat)
    requires d > 0 && q * d <= a < q * d + d
    ensures Quot(a, d) == q
  {
    var p := Quot(a, d);
    if p < q {
      MulStep(p, q, d);
    } else if q < p {
      MulStep(q, p, d);
    }
  }

  lemma MulMonotone(p: nat, q: nat, d: nat)
    requires p <= q
    ensures p * d <= q * d
  {
    if p < q {
      MulStep(p, q, d);
    }
  }

  lemma MulStep(p: nat, q: nat, d: nat)
    requires p < q
    ensures p * d + d <= q * d
  {
    var k := q - p - 1;
    assert q * d == p * d + d + k * d;
  }

  /** A quotient is at most `p` exactly below the next multiple. */
  lemma QuotAtMost(a: nat, d: nat, p: nat)
    requires d > 0
    ensures Quot(a, d) <= p <==> a < p * d + d
  {
    var q := Quot(a, d);
    if q < p {
      MulStep(q, p, d);
    } else if p < q {
      MulStep(p, q, d);
    }
  }

  lemma QuotMonotone(a: nat, b: nat, d: nat)
    requires a <= b && d > 0
    ensures Quot(a, d) <= Quot(b, d)
  {
    QuotAtMost(a, d, Quot(b, d));
  }

  /** Dividing by more gives no more. */
  lemma QuotAntitone(a: nat, d: nat, e: nat)
    requires 0 < d <= e
    ensures Quot(a, e) <= Quot(a, d)
  {
    var p := Quot(a, d);
    assert p * d <= p * e;
    QuotAtMost(a, e, p);
  }

  lemma PosMul(a: nat, b: nat)
    requires a > 0 && b > 0
    ensures a * b > 0
  {
    MulStep(0, a, b);
  }

  /** `a / (b * c)`: the rate of a clock `a` after prescaler `b` with `c` quanta per bit. */
  function RateOf(a: nat, b: nat, c: nat): nat
    requires b > 0 && c > 0
  {
    PosMul(b, c);
    Quot(a, b * c)
  }
}
