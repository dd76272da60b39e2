/** Facts about products and quotients of whole numbers. */
module Arithmetic {

  lemma Distribute(a: int, b: int, c: int)
    ensures (a + b) * c == a * c + b * c
  {
  }

  lemma MulMono(a: nat, b: nat, k: nat)
    requires a <= b
    ensures a * k <= b * k
  {
  }

  lemma MulAssoc(a: nat, b: nat, c: nat)
    ensures a * (b * c) == (a * b) * c
  {
  }

  lemma QuotientUnique(items: nat, parts: nat, q: nat, r: nat)
    requires parts > 0 && r < parts && items == parts * q + r
    ensures items / parts == q && items % parts == r
  {
    var q', r' := items / parts, items % parts;
    assert parts * q' + r' == items;
    if q' > q {
      MulAtLeast(parts, q' - q);
      Distribute(q' - q, q, parts);
    } else if q' < q {
      MulAtLeast(parts, q - q');
      Distribute(q - q', q', parts);
    }
  }

  lemma MulAtLeast(a: nat, b: nat)
    requires b > 0
    ensures a * b >= a
  {
  }

  lemma PositiveFactor(n: nat, d: nat)
    requires n * d > 0
    ensures n > 0 && d > 0
  {
  }

  lemma DivideProduct(n: nat, d: nat)
    requires d > 0
    ensures (n * d) / d == n
  {
    QuotientUnique(n * d, d, n, 0);
  }

  lemma DivModLess(k: nat, d: nat, n: nat)
    requires n > 0 && k < d * n
    ensures k / n < d && k % n < n && (k / n) * n + k % n == k
  {
    assert k == n * (k / n) + k % n;
    if k / n >= d {
      MulMono(d, k / n, n);
    }
  }

  lemma QuotientBelow(k: nat, n: nat, d: nat)
    requires n > 0 && k < n * d
    ensures 0 <= k / n < d && 0 <= k % n < n && k == (k / n) * n + k % n
  {
    assert n * d == d * n;
    DivModLess(k, d, n);
  }

  lemma SubtractMultiple(k: nat, n: nat)
    requires n > 0
    ensures 0 <= k / n && k - (k / n) * n == k % n && 0 <= k % n < n
  {
    assert k == n * (k / n) + k % n;
  }

  lemma PositiveProduct(a: real, b: real, product: real)
    requires a > 0.0 && b > 0.0 && product == a * b
    ensures product > 0.0
  {
  }
}
