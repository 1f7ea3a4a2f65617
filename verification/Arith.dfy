/** Facts about Euclidean division and products that the rank arithmetic relies on. */
module Arith {

  lemma MulMono(a: int, b: int, c: int)
    requires a <= b && 0 <= c
    ensures a * c <= b * c && c * a <= c * b
  {
  }

  lemma DivModId(n: int, d: int)
    requires 0 < d
    ensures n == n % d + d * (n / d)
  {
  }

  /** Quotient and remainder are determined by the division equation. */
  lemma DivModUnique(n: int, d: int, q: int, r: int)
    requires 0 < d && 0 <= r < d && n == q * d + r
    ensures n / d == q && n % d == r
  {
    var q', r' := n / d, n % d;
    assert n == q' * d + r' && (q + 1) * d == q * d + d && (q' + 1) * d == q' * d + d;
    if q < q' {
      MulMono(q + 1, q', d);
    } else if q' < q {
      MulMono(q' + 1, q, d);
    }
  }

  /** Dividing by a product is dividing twice; the remainder splits into two digits. */
  lemma DivModProduct(n: nat, a: nat, b: nat)
    requires 0 < a && 0 < b
    ensures 0 < a * b
    ensures n / (a * b) == n / a / b
    ensures n % (a * b) == n % a + a * (n / a % b)
  {
    var q, m := n / a / b, n / a % b;
    assert n / a == q * b + m;
    assert n == (q * b + m) * a + n % a;
    assert (q * b + m) * a == q * (a * b) + a * m;
    MulMono(m + 1, b, a);
    assert (m + 1) * a == a * m + a;
    DivModUnique(n, a * b, q, n % a + a * m);
  }

  lemma DivBound(n: nat, a: nat, b: nat)
    requires 0 < a && n < a * b
    ensures n / a < b
  {
    assert n == n / a * a + n % a;
    if b <= n / a {
      MulMono(b, n / a, a);
    }
  }

  /** Reading back the two digits of `lo + a * hi`. */
  lemma TwoDigits(lo: nat, hi: nat, a: nat)
    requires lo < a
    ensures (lo + a * hi) % a == lo && (lo + a * hi) / a == hi
  {
    DivModUnique(lo + a * hi, a, hi, lo);
  }

  lemma TwoDigitsBound(lo: nat, hi: nat, a: nat, b: nat)
    requires lo < a && hi < b
    ensures lo + a * hi < a * b
  {
    MulMono(hi + 1, b, a);
    assert (hi + 1) * a == a * hi + a;
  }

  /** Comparing two-digit numbers: the high digit decides, then the low one. */
  lemma TwoDigitsLess(lo: nat, hi: nat, lo': nat, hi': nat, a: nat)
    requires lo < a && lo' < a
    requires hi < hi' || (hi == hi' && lo < lo')
    ensures lo + a * hi < lo' + a * hi'
  {
    if hi < hi' {
      MulMono(hi + 1, hi', a);
      assert (hi + 1) * a == a * hi + a;
    }
  }

  lemma DivLess(n: nat, n': nat, a: nat)
    requires 0 < a && n < n'
    ensures n / a < n' / a || (n / a == n' / a && n % a < n' % a)
  {
    assert n == n / a * a + n % a && n' == n' / a * a + n' % a;
    assert (n' / a + 1) * a == n' / a * a + a;
    if n' / a < n / a {
      MulMono(n' / a + 1, n / a, a);
    }
  }

  lemma MulAssoc(a: int, b: int, c: int)
    ensures a * b * c == a * (b * c) == b * (a * c)
  {
  }

}
