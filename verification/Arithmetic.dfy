/** Facts about products and remainders by a variable divisor. */
module Arithmetic {

  lemma MultipleGrows(e: int, a: int)
    requires a > 0
    ensures e >= 1 ==> e * a >= a
    ensures e <= -1 ==> e * a <= -a
  {
  }

  lemma Euclid(t: int, a: int)
    requires a > 0
    ensures t == t / a * a + t % a && 0 <= t % a < a && (t >= 0 ==> t / a >= 0)
  {
  }

  lemma RemainderUnique(t: int, a: int, q: int, r: int)
    requires a > 0 && t == q * a + r && 0 <= r < a
    ensures t % a == r && t / a == q
  {
    var e := t / a - q;
    assert t == (t / a) * a + t % a;
    assert e * a == r - t % a;
    MultipleGrows(e, a);
  }

  lemma ProductGrows(q: nat, m: nat, n: nat)
    ensures q >= m ==> q * n >= m * n
  {
  }

  lemma QuotientBelow(x: nat, n: nat, m: nat)
    requires n > 0 && x < n * m
    ensures x / n < m
  {
    assert x / n * n <= x;
    ProductGrows(x / n, m, n);
  }

  lemma DivideTwice(x: nat, a: nat, b: nat)
    requires a > 0 && b > 0
    ensures a * b > 0 && x / (a * b) == x / a / b
  {
    MultipleGrows(a, b);
    DivideBy(x, a, b, a * b);
  }

  lemma DivideBy(x: nat, a: nat, b: nat, n: nat)
    requires a > 0 && b > 0 && n > 0 && n == a * b
    ensures x / n == x / a / b
  {
    Euclid(x, a);
    Euclid(x / a, b);
    Nested(x, a, b, n, x / a, x % a, x / a / b, x / a % b);
  }

  lemma Nested(x: nat, a: nat, b: nat, n: nat, d: nat, s: nat, q: nat, r: nat)
    requires n > 0 && n == a * b && s < a && r < b && x == d * a + s && d == q * b + r
    ensures x / n == q
  {
    Regroup(a, b, q, r, s);
    RemainderUnique(x, n, q, r * a + s);
  }

  lemma Regroup(a: nat, b: nat, q: nat, r: nat, s: nat)
    requires r < b && s < a
    ensures 0 <= r * a + s < a * b
    ensures (q * b + r) * a + s == q * (a * b) + (r * a + s)
  {
    ProductGrows(b, r + 1, a);
    assert (q * b) * a == q * (a * b);
  }

  lemma BelowBoth(x: nat, n: nat, m: nat)
    requires n > 0 && m > 0 && x < n * m
    ensures x / n % m == x / n
  {
    QuotientBelow(x, n, m);
    var d := x / n;
    assert 0 <= d;
    RemainderUnique(d, m, 0, d);
  }
}
