/** Powers, and the facts about products that the other modules need. */
module Powers {

  function Power(x: nat, n: nat): nat {
    if n == 0 then 1 else x * Power(x, n - 1)
  }

  lemma PowerNext(x: nat, n: nat)
    ensures Power(x, n + 1) == x * Power(x, n)
  {}

  lemma {:induction false} PowerPositive(x: nat, n: nat)
    requires x > 0
    ensures Power(x, n) > 0
  {
    if n > 0 {
      PowerPositive(x, n - 1);
    }
  }

  lemma TimesPositive(a: nat, p: nat)
    ensures a * p >= 0
  {}

  lemma TimesAtLeast(m: nat, p: nat)
    requires p > 0
    ensures m * p >= m
  {
    assert m * p == m + m * (p - 1);
    TimesPositive(m, p - 1);
  }

  lemma BelowTimes(a: int, b: int, p: nat)
    requires p > 0
    ensures a < b <==> a * p < b * p
  {
    assert b * p - a * p == (b - a) * p;
    if a < b {
      assert (b - a) * p >= p by {
        TimesAtLeast(p, b - a);
      }
    } else {
      TimesPositive(a - b, p);
      assert (b - a) * p == -((a - b) * p);
    }
  }

  lemma TimesMonotone(x: nat, y: nat, p: nat, q: nat)
    requires x <= y && p <= q
    ensures x * p <= y * q
  {
    assert y * q == x * p + x * (q - p) + (y - x) * q;
    TimesPositive(x, q - p);
    TimesPositive(y - x, q);
  }

  lemma TimesStrict(x: nat, y: nat, p: nat, q: nat)
    requires x < y && p <= q && q > 0
    ensures x * p < y * q
  {
    TimesMonotone(x, x, p, q);
    assert y * q == x * q + (y - x) * q;
    TimesAtLeast(q, y - x);
  }

  lemma {:induction false} PowerSum(x: nat, a: nat, b: nat)
    ensures Power(x, a + b) == Power(x, a) * Power(x, b)
  {
    if a > 0 {
      PowerSum(x, a - 1, b);
      assert Power(x, a + b) == x * Power(x, a - 1 + b);
      assert x * (Power(x, a - 1) * Power(x, b)) == (x * Power(x, a - 1)) * Power(x, b);
    }
  }

  lemma {:induction false} PowerProduct(x: nat, a: nat, b: nat)
    ensures Power(Power(x, a), b) == Power(x, a * b)
  {
    if b > 0 {
      PowerProduct(x, a, b - 1);
      PowerSum(x, a, a * (b - 1));
      assert a * b == a + a * (b - 1);
    } else {
      assert a * b == 0;
    }
  }

  lemma {:induction false} PowerMonotone(x: nat, y: nat, n: nat)
    requires x <= y
    ensures Power(x, n) <= Power(y, n)
    ensures x < y && n > 0 ==> Power(x, n) < Power(y, n)
  {
    if n > 0 {
      PowerMonotone(x, y, n - 1);
      TimesMonotone(x, y, Power(x, n - 1), Power(y, n - 1));
      if x < y {
        PowerPositive(y, n - 1);
        TimesStrict(x, y, Power(x, n - 1), Power(y, n - 1));
      }
    }
  }

  lemma {:induction false} PowerLonger(x: nat, a: nat, b: nat)
    requires x > 0 && a <= b
    ensures Power(x, a) <= Power(x, b)
  {
    PowerSum(x, a, b - a);
    PowerPositive(x, b - a);
    TimesAtLeast(Power(x, a), Power(x, b - a));
  }

  lemma Combine(x: nat, a: nat, b: nat, v: nat, w: nat)
    requires Power(x, a) == v && Power(x, b) == w
    ensures Power(x, a + b) == v * w
  {
    PowerSum(x, a, b);
  }

  lemma PowerOne(x: nat)
    ensures Power(x, 1) == x
  {}

  lemma Swap(x: nat, y: nat, p: nat, q: nat)
    ensures (x * y) * (p * q) == (x * p) * (y * q)
  {
    assert (x * y) * (p * q) == x * (y * (p * q));
    assert y * (p * q) == p * (y * q);
    assert x * (p * (y * q)) == (x * p) * (y * q);
  }

  lemma {:induction false} PowerTimes(x: nat, y: nat, n: nat)
    ensures Power(x * y, n) == Power(x, n) * Power(y, n)
  {
    if n > 0 {
      PowerTimes(x, y, n - 1);
      Swap(x, y, Power(x, n - 1), Power(y, n - 1));
    }
  }

  /** A quotient is the one number whose multiples enclose the dividend. */
  lemma QuotientIs(n: nat, d: nat, q: nat)
    requires d > 0 && d * q <= n < d * q + d
    ensures n / d == q
  {
    var r := n - d * q;
    assert n == q * d + r && 0 <= r < d;
    NotAbove(d, q, r, n / d, n % d);
    NotAbove(d, n / d, n % d, q, r);
  }

  lemma NotAbove(d: nat, q: int, r: int, q': int, r': int)
    requires 0 <= r && r' < d && q * d + r == q' * d + r'
    ensures q <= q'
  {
    assert (q - q') * d == r' - r;
    if q > q' {
      TimesAtLeast(d, q - q');
    }
  }

  lemma DivideTwice(n: nat, a: nat, b: nat)
    requires a > 0 && b > 0
    ensures a * b > 0 && n / a / b == n / (a * b)
  {
    TimesAtLeast(a, b);
    Enclosed(n, a, b, n / a, n % a, n / a / b, n / a % b);
    QuotientIs(n, a * b, n / a / b);
  }

  lemma Enclosed(n: nat, a: nat, b: nat, q: nat, r: nat, q2: nat, r2: nat)
    requires n == a * q + r && r < a && q == b * q2 + r2 && r2 < b
    ensures (a * b) * q2 <= n < (a * b) * q2 + a * b
  {
    ProductOfSum(a, b, q2, r2);
    TimesMonotone(a, a, r2, b - 1);
    TimesPositive(a, r2);
    assert a * (b - 1) == a * b - a;
  }

  lemma ProductOfSum(a: nat, b: nat, c: nat, d: nat)
    ensures a * (b * c + d) == (a * b) * c + a * d
  {
    assert a * (b * c) == (a * b) * c;
  }
}
