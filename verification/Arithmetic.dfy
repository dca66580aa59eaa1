/** Floor and ceiling division of naturals: what each step of the contracts' rounding loses,
    and exactly what a conversion made there and back does. */
module Arithmetic {

  /** The contracts state prices and fractions in millionths. */
  const PRECISION: nat := 1_000_000

  function DivUp(n: nat, d: nat): nat
    requires d > 0
  {
    (n + d - 1) / d
  }

  /** A product is monotone in its first factor. */
  lemma MulMono(x: nat, y: nat, z: nat)
    requires x <= y
    ensures x * z <= y * z
  {
    assert (y - x) * z >= 0;
  }

  lemma MulAssoc(x: nat, y: nat, z: nat)
    ensures x * y * z == x * (y * z)
  {
  }

  lemma DivBounds(n: nat, d: nat)
    requires d > 0
    ensures n / d * d <= n < (n / d + 1) * d
  {
    assert n == d * (n / d) + n % d;
  }

  lemma DivUnique(n: nat, d: nat, q: nat)
    requires d > 0
    requires q * d <= n < (q + 1) * d
    ensures n / d == q
  {
    DivBounds(n, d);
    if n / d < q {
      MulMono(n / d + 1, q, d);
    } else if n / d > q {
      MulMono(q + 1, n / d, d);
    }
  }

  /** Floor division is the upper adjoint of multiplication. */
  lemma DivAdjoint(n: nat, d: nat, q: nat)
    requires d > 0
    ensures q <= n / d <==> q * d <= n
  {
    DivBounds(n, d);
    if q <= n / d {
      MulMono(q, n / d, d);
    } else {
      MulMono(n / d + 1, q, d);
    }
  }

  /** The quotient is q exactly between q divisors and q + 1. */
  lemma DivExactly(n: nat, d: nat, q: nat)
    requires d > 0
    ensures n / d == q <==> q * d <= n < q * d + d
  {
    var qd := q * d;
    assert (q + 1) * d == qd + d;
    DivAdjoint(n, d, q);
    DivAdjoint(n, d, q + 1);
  }

  /** Ceiling division is the lower adjoint of multiplication. */
  lemma DivUpAdjoint(n: nat, d: nat, q: nat)
    requires d > 0
    ensures DivUp(n, d) <= q <==> n <= q * d
  {
    DivAdjoint(n + d - 1, d, q + 1);
    assert (q + 1) * d == q * d + d;
  }

  /** Rounding up exceeds rounding down by one, or by nothing when the division is exact. */
  lemma DivUpGap(n: nat, d: nat)
    requires d > 0
    ensures DivUp(n, d) == n / d + if n % d == 0 then 0 else 1
  {
    var q, r := n / d, n % d;
    assert n == d * q + r && q * d == d * q;
    if r == 0 {
      DivUnique(n + d - 1, d, q);
    } else {
      assert (q + 1) * d == d * q + d && (q + 2) * d == d * q + 2 * d;
      DivUnique(n + d - 1, d, q + 1);
    }
  }

  lemma DivMono(m: nat, n: nat, d: nat)
    requires d > 0 && m <= n
    ensures m / d <= n / d
  {
    var q := m / d;
    assert q * d <= m by { DivBounds(m, d); }
    DivAdjoint(n, d, q);
  }

  lemma MulCancel(x: nat, y: nat, z: nat)
    requires z > 0 && x * z <= y * z
    ensures x <= y
  {
    DivUnique(x * z, z, x);
    DivUnique(y * z, z, y);
    DivMono(x * z, y * z, z);
  }

  /** A larger divisor gives a smaller quotient. */
  lemma DivAntitone(n: nat, d: nat, e: nat)
    requires 0 < d <= e
    ensures n / e <= n / d
  {
    DivBounds(n, e);
    MulMono(d, e, n / e);
    DivAdjoint(n, d, n / e);
  }

  /** Multiply by a / b and then by b / a, rounding down both times: the result falls short
      of x by exactly the remainder of the first division, over a, rounded up. */
  lemma RoundTrip(x: nat, a: nat, b: nat)
    requires a > 0 && b > 0
    ensures var r := x * a % b;
            DivUp(r, a) <= x && x * a / b * b / a == x - DivUp(r, a)
  {
    var q, r := x * a / b, x * a % b;
    assert x * a == q * b + r;
    var c := DivUp(r, a);
    DivUpAdjoint(r, a, x);
    assert r <= x * a;
    DivUpAdjoint(r, a, c);
    if c > 0 {
      DivUpAdjoint(r, a, c - 1);
      assert (c - 1) * a < r;
    }
    assert (x - c) * a == x * a - c * a;
    assert (x - c + 1) * a == x * a - (c - 1) * a;
    DivUnique(q * b, a, x - c);
  }

  /** The loss of a round trip is zero exactly when the first division leaves no remainder,
      and it never exceeds (b - 1) / a rounded up. */
  lemma RoundTripLoss(x: nat, a: nat, b: nat)
    requires a > 0 && b > 0
    ensures DivUp(x * a % b, a) <= x && x * a / b * b / a == x - DivUp(x * a % b, a)
    ensures x - DivUp(b - 1, a) <= x * a / b * b / a
    ensures x * a / b * b / a == x <==> x * a % b == 0
    ensures x * a / b * b <= x * a
  {
    var r := x * a % b;
    RoundTrip(x, a, b);
    DivBounds(x * a, b);
    DivUpAdjoint(r, a, 0);
    DivUpAdjoint(b - 1, a, DivUp(b - 1, a));
    DivUpAdjoint(r, a, DivUp(b - 1, a));
  }

  /** Flooring two parts separately loses at most one unit against flooring their sum. */
  lemma DivSplit(m: nat, n: nat, d: nat)
    requires d > 0
    ensures m / d + n / d <= (m + n) / d <= m / d + n / d + 1
  {
    var p, q := m / d, n / d;
    DivExactly(m, d, p);
    DivExactly(n, d, q);
    SplitProduct(p, q, d);
    DivExactly(m + n, d, p + q);
    DivExactly(m + n, d, p + q + 1);
  }

  lemma SplitProduct(p: nat, q: nat, d: nat)
    ensures (p + q) * d == p * d + q * d
    ensures (p + q + 1) * d == p * d + q * d + d
  {
  }

  /** The larger of two rates never yields less. */
  lemma RateMono(x: nat, p: nat, b: nat, p': nat, b': nat)
    requires b > 0 && b' > 0 && p' * b <= p * b'
    ensures x * p' / b' <= x * p / b
  {
    var q := x * p' / b';
    assert q * b' <= x * p' by { DivBounds(x * p', b'); }
    calc {
      q * b * b';
      { MulAssoc(q, b, b'); MulAssoc(q, b', b); }
      q * b' * b;
    <= { MulMono(q * b', x * p', b); }
      x * p' * b;
      { MulAssoc(x, p', b); }
      x * (p' * b);
    <= { MulMono(p' * b, p * b', x); }
      x * (p * b');
      { MulAssoc(x, p, b'); }
      x * p * b';
    }
    MulCancel(q * b, x * p, b');
    DivAdjoint(x * p, b, q);
  }

  /** One more purchase, rounded down, keeps what was sold within what was paid, and what was
      paid within one unit a purchase of what was sold. */
  lemma PurchaseAddsUp(sold: nat, paid: nat, purchases: nat, price: nat, scale: nat, payment: nat)
    requires price > 0 && sold * price <= paid * scale <= (sold + purchases) * price
    ensures var x := payment * scale / price;
            && (sold + x) * price <= (paid + payment) * scale
            && (paid + payment) * scale < (sold + x + (purchases + 1)) * price
  {
    var x := payment * scale / price;
    DivBounds(payment * scale, price);
    assert (sold + x) * price == sold * price + x * price;
    assert (paid + payment) * scale == paid * scale + payment * scale;
    assert (sold + x + (purchases + 1)) * price == (sold + purchases) * price + (x + 1) * price;
  }
}
