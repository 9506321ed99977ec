/** Quotients. */
module Division {
  lemma {:induction false} QuotientBelow(d: nat, n: nat, rate: nat)
    requires n > 0
    ensures d / n < rate <==> d < n * rate
  {
    var q := d / n;
    assert d == n * q + d % n;
    if q < rate {
      assert n * (q + 1) <= n * rate;
    } else {
      assert n * rate <= n * q;
    }
  }

  lemma {:induction false} QuotientIs(n: nat, d: nat, q: nat, low: nat)
    requires d > 0 && low < d && n == d * q + low
    ensures n / d == q
  {
    QuotientBelow(n, d, q);
    Distribute(d, q, 1);
    QuotientBelow(n, d, q + 1);
  }

  lemma {:induction false} Distribute(a: nat, x: nat, y: nat)
    ensures a * (x + y) == a * x + a * y
  {
  }

  lemma {:induction false} Associate(a: nat, b: nat, c: nat)
    ensures a * (b * c) == a * b * c
  {
  }

  lemma {:induction false} AtLeast(a: nat, k: nat)
    requires k > 0
    ensures a * k >= a
  {
  }

  lemma {:induction false} Grouped(a: nat, b: nat, q: nat, s: nat, r: nat)
    requires s < b && r < a
    ensures a * (b * q + s) + r == a * b * q + (a * s + r) && 0 <= a * s + r < a * b
  {
    Distribute(a, b * q, s);
    Associate(a, b, q);
    Distribute(a, s, b - s);
    AtLeast(a, b - s);
  }

  lemma {:induction false} Parts(n: nat, d: nat)
    requires d > 0
    ensures n == d * (n / d) + n % d
  {
  }

  lemma {:induction false} DivideTwice(n: nat, a: nat, b: nat)
    requires a > 0 && b > 0
    ensures a * b > 0 && n / a / b == n / (a * b)
  {
    var x := n / a;
    Grouped(a, b, x / b, x % b, n % a);
    Parts(n, a);
    Parts(x, b);
    QuotientIs(n, a * b, x / b, a * (x % b) + n % a);
  }
}
