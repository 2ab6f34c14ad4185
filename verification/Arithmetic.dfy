/** Facts about products, quotients and remainders that the other modules use. */
module Arithmetic {

  lemma ProductGrows(a: int, b: int, c: int)
    requires a <= b && c >= 0
    ensures a * c <= b * c && c * a <= c * b
  {}

  lemma Distributes(a: int, b: int, c: int)
    ensures (a + b) * c == a * c + b * c
  {}

  lemma MultipleInside(d: int, k: int)
    requires d > 0
    ensures -d < d * k < d ==> k == 0
  {
    if k >= 1 {
      ProductGrows(1, k, d);
    } else if k <= -1 {
      ProductGrows(k, -1, d);
    }
  }

  /** Quotient and remainder are determined by what they satisfy. */
  lemma DivisionIsUnique(x: int, d: int, q: int, r: int)
    requires d > 0 && 0 <= r < d && x == d * q + r
    ensures x / d == q && x % d == r
  {
    var k := x / d - q;
    assert x == d * (x / d) + x % d;
    Distributes(x / d, -q, d);
    assert d * k == r - x % d;
    MultipleInside(d, k);
  }

  /** The remainder by twice a number is no less than that by the number. */
  lemma QuotientAndRest(x: int, d: int)
    requires d > 0
    ensures d * (x / d) + x % d == x && 0 <= x % d < d
  {}

  lemma RemainderGrows(x: int, d: int)
    requires d > 0
    ensures x % d <= x % (2 * d)
  {
    var q, r := x / (2 * d), x % (2 * d);
    assert x == (2 * d) * q + r;
    assert (2 * d) * q == d * (2 * q);
    if r < d {
      DivisionIsUnique(x, d, 2 * q, r);
    } else {
      Distributes(2 * q, 1, d);
      DivisionIsUnique(x, d, 2 * q + 1, r - d);
    }
  }

  lemma QuotientIsLess(x: nat, d: int)
    requires d > 0
    ensures 0 <= x / d <= x
  {
    assert x == d * (x / d) + x % d;
    if x / d < 0 {
      ProductGrows(x / d, -1, d);
    } else {
      ProductGrows(1, d, x / d);
    }
  }

  lemma SmallOverLarge(m: nat, d: int)
    requires m < d
    ensures m / d == 0 && m % d == m
  {
    DivisionIsUnique(m, d, 0, m);
  }

  lemma MultipleHasNoRest(k: int, d: int)
    requires d > 0
    ensures (k * d) % d == 0 && (k * d) / d == k
  {
    DivisionIsUnique(k * d, d, k, 0);
  }

  lemma Reassociates(a: int, b: int, c: int)
    ensures a * b * c == a * (b * c)
  {}

  lemma ProductIsPositive(a: int, b: int)
    requires a > 0 && b > 0
    ensures a * b > 0
  {}

  /** A common factor cancels. */
  lemma CommonFactorCancels(a: nat, b: int, c: int)
    requires b > 0 && c > 0
    ensures b * c > 0 && (a * c) / (b * c) == a / b && (a * c) % (b * c) == (a % b) * c
  {
    var q, r := a / b, a % b;
    ProductIsPositive(b, c);
    assert a == b * q + r;
    Distributes(b * q, r, c);
    assert b * q * c == b * c * q;
    ProductGrows(r + 1, b, c);
    Distributes(r, 1, c);
    ProductGrows(0, r, c);
    DivisionIsUnique(a * c, b * c, q, r * c);
  }

  /** Dividing twice is dividing by the product. */
  lemma DividesTwice(x: nat, a: int, b: int)
    requires a > 0 && b > 0
    ensures a * b > 0 && x / a / b == x / (a * b)
  {
    var q, r := x / a, x % a;
    var p, t := q / b, q % b;
    ProductIsPositive(a, b);
    assert x == a * q + r && q == b * p + t;
    Distributes(b * p, t, a);
    assert a * (b * p) == a * b * p;
    ProductGrows(t + 1, b, a);
    Distributes(t, 1, a);
    ProductGrows(0, t, a);
    DivisionIsUnique(x, a * b, p, a * t + r);
  }

  lemma MultiplesOfMultiples(x: int, m: int, w: int, c: int, y: int)
    requires w > 0 && m > 0 && m == w * c && x % m == 0 && y % w == 0
    ensures (x - y) % w == 0
  {
    var q, r := x / m, y / w;
    assert x - y == (q * c - r) * w by {
      assert x == m * q && y == w * r;
      assert w * c * q == q * c * w;
      Distributes(q * c, -r, w);
    }
    MultipleHasNoRest(q * c - r, w);
  }
}
