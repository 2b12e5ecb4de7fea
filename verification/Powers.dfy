/** Powers of two and nested division. */
module Powers {
  function Pow2(n: nat): (p: nat)
    ensures p > 0
  {
    if n == 0 then 1 else 2 * Pow2(n - 1)
  }

  lemma {:induction false} Pow2Sum(a: nat, b: nat)
    ensures Pow2(a + b) == Pow2(a) * Pow2(b)
  {
    if a > 0 {
      Pow2Sum(a - 1, b);
    }
  }

  lemma AtLeast(k: nat, d: nat)
    requires k > 0
    ensures k * d >= d
  {
  }

  lemma OnlyQuotient(d: nat, q: int, r: nat, q1: int, r1: nat)
    requires r < d && r1 < d && q * d + r == q1 * d + r1
    ensures q == q1
  {
    assert (q - q1) * d == q * d - q1 * d;
    assert (q1 - q) * d == q1 * d - q * d;
    if q > q1 {
      AtLeast(q - q1, d);
    } else if q < q1 {
      AtLeast(q1 - q, d);
    }
  }

  lemma Divided(x: nat, d: nat)
    requires d > 0
    ensures x == (x / d) * d + x % d && x % d < d
  {
  }

  lemma Quotient(x: nat, d: nat, q: nat, r: nat)
    requires x == q * d + r && r < d
    ensures x / d == q && x % d == r
  {
    Divided(x, d);
    OnlyQuotient(d, q, r, x / d, x % d);
  }

  lemma Reassociate(q: int, b: int, a: int, r: int)
    ensures (q * b + r) * a == q * (a * b) + r * a
    ensures (q * b + r) * a == (q * b) * a + r * a
  {
    assert (q * b) * a == q * (a * b);
  }

  lemma Positive(a: nat, b: nat)
    requires a > 0 && b > 0
    ensures a * b > 0
  {
  }

  lemma Below(r: nat, b: nat, a: nat, s: nat)
    requires r < b && s < a
    ensures r * a + s < a * b
  {
    AtLeast(b - r, a);
    assert (b - r) * a == a * b - r * a;
  }

  lemma DivDiv(x: nat, a: nat, b: nat)
    requires a > 0 && b > 0
    ensures a * b > 0 && x / (a * b) == (x / a) / b
  {
    Positive(a, b);
    var y, s := x / a, x % a;
    var q, r := y / b, y % b;
    Divided(x, a);
    Divided(y, b);
    Reassociate(q, b, a, r);
    Below(r, b, a, s);
    QuotientOf(x, a * b, q, r * a + s);
  }

  lemma QuotientOf(x: nat, d: nat, q: nat, r: int)
    requires x == q * d + r && 0 <= r < d
    ensures x / d == q
  {
    Quotient(x, d, q, r);
  }

  /** The quotient by the finer unit, from that by the coarser one and from the low part. */
  lemma SplitQuotient(x: nat, d: nat, m: nat)
    requires d > 0 && m > 0
    ensures d * m > 0 && x / d == (x / (d * m)) * m + (x % (d * m)) / d
  {
    Positive(d, m);
    SplitQuotientAt(x, d, m, d * m);
  }

  lemma SplitQuotientAt(x: nat, d: nat, m: nat, e: nat)
    requires d > 0 && e > 0 && e == d * m
    ensures x / d == (x / e) * m + (x % e) / d
  {
    var q, l := x / e, x % e;
    Divided(x, e);
    Divided(l, d);
    Nested(q, e, d, m, l / d, l % d);
    QuotientOf(x, d, q * m + l / d, l % d);
  }

  lemma Nested(q: nat, e: nat, d: nat, m: nat, r: nat, s: nat)
    requires e == d * m
    ensures q * e + (r * d + s) == (q * m + r) * d + s
  {
    Reassociate(q, m, d, r);
  }

  lemma EvenQuotient(a: nat, d: nat, m: nat)
    requires d > 0 && m > 0 && d * (2 * m) > 0 && a % (d * (2 * m)) == 0
    ensures (a / d) % 2 == 0
  {
    var q := a / (d * (2 * m));
    Divided(a, d * (2 * m));
    Reassociate(q, 2 * m, d, 0);
    QuotientOf(a, d, q * (2 * m), 0);
    assert q * (2 * m) == 2 * (q * m);
  }

  function Down(a: nat, d: nat): (b: nat)
    requires d > 0
    ensures b <= a && b % d == 0 && b / d == a / d
  {
    Divided(a, d);
    Quotient(a - a % d, d, a / d, 0);
    a - a % d
  }

  /** Equal in the finer blocks, so equal in the coarser ones. */
  lemma SameCoarser(x: nat, y: nat, fine: nat, coarse: nat)
    requires fine <= coarse && x / Pow2(fine) == y / Pow2(fine)
    ensures x / Pow2(coarse) == y / Pow2(coarse)
  {
    Pow2Sum(fine, coarse - fine);
    DivDiv(x, Pow2(fine), Pow2(coarse - fine));
    DivDiv(y, Pow2(fine), Pow2(coarse - fine));
  }
}
