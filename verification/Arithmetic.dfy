/** The few nonlinear facts the other modules build on, each proved on its own. */
module Arithmetic {
  lemma MulMono(a: int, b: int, c: nat)
    requires a <= b
    ensures a * c <= b * c
  {
  }

  lemma MulStep(k: int, r: int)
    ensures k * r == (k - 1) * r + r
  {
  }

  lemma MulDouble(i: nat, r: nat, s: nat)
    requires 2 * s <= r
    ensures 2 * (i * s) <= i * r
  {
    MulMono(2 * s, r, i);
  }

  lemma MulStrict(a: int, b: int, c: nat)
    requires a < b && c > 0
    ensures a * c < b * c
  {
  }

  /** A product is ordered as its factors are. */
  lemma MulCancel(a: int, b: int, c: nat)
    requires a * c <= b * c && c > 0
    ensures a <= b
  {
    if b < a {
      MulStrict(b, a, c);
    }
  }

  lemma DivBounds(n: nat, d: nat)
    requires d > 0
    ensures n / d * d <= n < n / d * d + d
  {
    assert n == n / d * d + n % d;
  }

  /** Floor division is the one quotient that fits. */
  lemma DivUnique(n: nat, d: nat, q: nat)
    requires d > 0 && q * d <= n < q * d + d
    ensures n / d == q
  {
    DivBounds(n, d);
    var p := n / d;
    if p < q {
      MulMono(p + 1, q, d);
    } else if q < p {
      MulMono(q + 1, p, d);
    }
  }

  lemma DivAntitone(n: nat, c: nat, d: nat)
    requires 0 < c <= d
    ensures n / d <= n / c
  {
    DivBounds(n, c);
    DivBounds(n, d);
    var p := n / d;
    MulCommute(p, c, d);
    if n / c < p {
      MulMono(n / c + 1, p, c);
    }
  }

  lemma MulCommute(p: nat, c: nat, d: nat)
    requires c <= d
    ensures p * c <= p * d
  {
    MulMono(c, d, p);
  }

  lemma TwoFloors(n: nat, c: nat, d: nat, p: nat, q: nat)
    requires q * d <= p < q * d + d && p * c <= n < p * c + c
    ensures q * (c * d) <= n < q * (c * d) + c * d
  {
    MulMono(q * d, p, c);
    MulMono(p + 1, q * d + d, c);
    assert (p + 1) * c == p * c + c;
    assert q * d * c == q * (c * d);
    assert (q * d + d) * c == q * d * c + d * c;
  }

  lemma DivDiv(n: nat, c: nat, d: nat)
    requires c > 0 && d > 0
    ensures c * d > 0 && n / c / d == n / (c * d)
  {
    MulStrict(0, c, d);
    DivBounds(n, c);
    DivBounds(n / c, d);
    TwoFloors(n, c, d, n / c, n / c / d);
    DivUnique(n, c * d, n / c / d);
  }

  /** Floor division, named so that proofs can treat it through its bounds alone. */
  function Quotient(n: nat, d: nat): nat
    requires d > 0
  {
    n / d
  }

  lemma QuotientBounds(n: nat, d: nat)
    requires d > 0
    ensures Quotient(n, d) * d <= n < Quotient(n, d) * d + d
    ensures Quotient(n, d) <= n
  {
    DivBounds(n, d);
    MulMono(1, d, n / d);
  }

  /** The quotients below a bound are the multiples that fit. */
  lemma QuotientIsLargest(n: nat, d: nat, q: nat)
    requires d > 0
    ensures q <= Quotient(n, d) <==> q * d <= n
  {
    hide Quotient;
    QuotientBounds(n, d);
    var r := Quotient(n, d);
    if q <= r {
      MulMono(q, r, d);
    } else {
      MulMono(r + 1, q, d);
      assert (r + 1) * d == r * d + d;
    }
  }

  lemma MulBoth(a: nat, b: nat, c: nat, d: nat)
    requires a <= b && c <= d
    ensures a * c <= b * d
  {
    MulMono(a, b, c);
    MulMono(c, d, b);
  }

  lemma Exchange(a: int, b: int, c: int, d: int)
    ensures (a * b) * (c * d) == (a * c) * (b * d)
  {
    assert (a * b) * (c * d) == a * (b * c) * d;
  }

  /** Ratios compose: k1/l1 <= k2/l2 <= k3/l3, cross-multiplied. */
  lemma RatioTransitive(k1: nat, l1: nat, k2: nat, l2: nat, k3: nat, l3: nat)
    requires l2 > 0 && k1 * l2 <= k2 * l1 && k2 * l3 <= k3 * l2
    ensures k1 * l3 <= k3 * l1
  {
    MulMono(k1 * l2, k2 * l1, l3);
    MulMono(k2 * l3, k3 * l2, l1);
    assert k1 * l2 * l3 == k1 * l3 * l2 && k2 * l1 * l3 == k2 * l3 * l1 && k3 * l2 * l1 == k3 * l1 * l2;
    MulCancel(k1 * l3, k3 * l1, l2);
  }

  /** A product of two numbers is at most the square of their mean. */
  lemma MeanSquare(a: int, b: int)
    ensures 4 * (a * b) <= (a + b) * (a + b)
  {
    assert (a + b) * (a + b) == 4 * (a * b) + (a - b) * (a - b);
  }

  lemma SquareCancel(a: nat, b: nat)
    requires a * a < b * b
    ensures a < b
  {
    if b <= a {
      MulBoth(b, a, b, a);
    }
  }
}
