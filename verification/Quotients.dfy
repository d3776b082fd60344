/** Quotients of natural numbers. */
module Quotients {
  lemma NextMultiple(p: nat, q: nat, d: nat)
    requires p < q
    ensures (p + 1) * d <= q * d
  {
  }

  lemma QuotientIs(n: nat, d: nat, q: nat, r: nat)
    requires r < d && n == q * d + r
    ensures n / d == q
  {
    var p := n / d;
    assert n == p * d + n % d && (p + 1) * d == p * d + d && (q + 1) * d == q * d + d;
    if p < q { NextMultiple(p, q, d); assert false; }
    if q < p { NextMultiple(q, p, d); assert false; }
  }

  lemma RemainderBelow(c: nat, p: nat, r: nat, low: nat)
    requires r < p && low < c
    ensures c * r + low < c * p
  {
    NextMultiple(r, p, c);
    assert (r + 1) * c == r * c + c;
  }

  lemma Rearranged(c: nat, q: nat, p: nat, r: nat, a: nat)
    requires a == q * p + r
    ensures c * a == q * (c * p) + c * r
  {
    assert c * (q * p) == q * (c * p);
  }

  lemma Parts(n: nat, d: nat)
    requires d > 0
    ensures n == n / d * d + n % d && n % d < d
  {
  }

  /** Dividing by one number and then by another is dividing by their product. */
  lemma DivideTwice(n: nat, c: nat, p: nat)
    requires c > 0 && p > 0
    ensures c * p > 0 && n / c / p == n / (c * p)
  {
    var a, low := n / c, n % c;
    var q, r := a / p, a % p;
    Parts(n, c);
    Parts(a, p);
    DivideParts(n, c, p, a, low, q, r);
  }

  lemma DivideParts(n: nat, c: nat, p: nat, a: nat, low: nat, q: nat, r: nat)
    requires n == a * c + low && low < c && a == q * p + r && r < p
    ensures c * p > 0 && q == n / (c * p)
  {
    RemainderBelow(c, p, r, low);
    Rearranged(c, q, p, r, a);
    QuotientIs(n, c * p, q, c * r + low);
  }
}
