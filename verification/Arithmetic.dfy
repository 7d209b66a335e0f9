/** Facts about products and floor divisions that the solver does not find alone. */
module Arithmetic {

  lemma MulMonotone(a: int, b: int, d: int)
    requires a <= b && 0 <= d
    ensures a * d <= b * d
  {
    assert (b - a) * d >= 0;
  }

  lemma MulDistributes(a: int, b: int, d: int)
    ensures (a - b) * d == a * d - b * d
  {
  }

  lemma MulBounds(a: int, b: int)
    requires a > 0 && b > 0
    ensures a * b > 0
  {
  }

  /** Quotient and remainder are determined by their defining property. */
  lemma DivUnique(a: int, d: int, q: int, r: int)
    requires d > 0 && a == q * d + r && 0 <= r < d
    ensures a / d == q && a % d == r
  {
    var q', r' := a / d, a % d;
    assert a == q' * d + r' && 0 <= r' < d;
    assert (q + 1) * d == q * d + d && (q' + 1) * d == q' * d + d;
    if q' > q {
      MulMonotone(q + 1, q', d);
    } else if q' < q {
      MulMonotone(q' + 1, q, d);
    }
  }

  lemma DivModNat(a: nat, d: nat)
    requires d > 0
    ensures 0 <= a % d < d && a / d >= 0
  {
  }

  lemma DivModSplit(a: int, d: int)
    requires d > 0
    ensures a == a % d + d * (a / d)
  {
  }

  /** A floor division lies below the quotient by less than one. */
  lemma DivBounds(a: int, d: int)
    requires d > 0
    ensures (a / d) * d <= a < (a / d) * d + d
  {
  }

  /** `q <= a / d` exactly when `q` copies of `d` fit in `a`. */
  lemma DivAtLeast(a: int, d: int, q: int)
    requires d > 0
    ensures q <= a / d <==> q * d <= a
  {
    DivBounds(a, d);
    if q <= a / d {
      MulMonotone(q, a / d, d);
    } else {
      MulMonotone(a / d + 1, q, d);
      assert (a / d + 1) * d == (a / d) * d + d;
    }
  }

  lemma DivMonotone(a: int, b: int, d: int)
    requires d > 0 && a <= b
    ensures a / d <= b / d
  {
    DivAtLeast(a, d, a / d);
    DivAtLeast(b, d, a / d);
  }

  lemma DivDiv(a: nat, b: nat, c: nat)
    requires b > 0 && c > 0
    ensures b * c > 0
    ensures a / (b * c) == a / b / c
  {
    var q, r := a / b, a % b;
    var q', r' := q / c, q % c;
    MulBounds(b, c);
    assert a == q' * (b * c) + (r' * b + r) by {
      assert (q' * c + r') * b == q' * (b * c) + r' * b;
    }
    assert 0 <= r' * b + r < b * c by {
      MulMonotone(r', c - 1, b);
      assert (c - 1) * b == b * c - b;
    }
    DivUnique(a, b * c, q', r' * b + r);
  }
}
