/** Multiplication and Euclidean division on naturals. */
module Arith {

  lemma MulMonotone(a: nat, b: nat, p: nat)
    requires a <= b
    ensures a * p <= b * p
  {
  }

  lemma MulSwap(a: nat, b: nat, c: nat)
    ensures a * (b * c) == b * (a * c) == a * b * c == a * c * b
  {
  }

  lemma Distribute(a: nat, b: nat, p: nat)
    ensures (a + b) * p == a * p + b * p
  {
  }

  lemma DivMod(n: nat, d: nat)
    requires d > 0
    ensures n == n / d * d + n % d && n % d < d && n / d >= 0
  {
  }

  lemma ModUnique(a: nat, m: nat, q: nat, r: nat)
    requires m >= 1 && a == q * m + r && r < m
    ensures a % m == r && a / m == q
  {
    DivMod(a, m);
    QuotientUnique(q, r, a / m, a % m, m);
  }

  lemma QuotientUnique(q: nat, r: nat, q': nat, r': nat, d: nat)
    requires q * d + r == q' * d + r' && r < d && r' < d
    ensures q == q' && r == r'
  {
    Distribute(q, 1, d);
    Distribute(q', 1, d);
    if q < q' {
      MulMonotone(q + 1, q', d);
    } else if q' < q {
      MulMonotone(q' + 1, q, d);
    }
  }

  lemma QuotientBelow(n: nat, bound: nat, d: nat)
    requires d > 0 && n < bound * d
    ensures 0 <= n / d < bound
  {
    DivMod(n, d);
    if n / d >= bound {
      MulMonotone(bound, n / d, d);
    }
  }

  lemma CeilingDivide(x: nat, d: nat)
    requires x > 0 && d > 0
    ensures var n := (x - 1) / d + 1; (n - 1) * d < x <= n * d
  {
    DivMod(x - 1, d);
    Distribute((x - 1) / d, 1, d);
  }

  lemma NextMod(k: nat, n: nat)
    requires n > 0
    ensures (k + 1) % n == if k % n + 1 == n then 0 else k % n + 1
  {
    var q, r := k / n, k % n;
    DivMod(k, n);
    if r + 1 == n {
      Distribute(q, 1, n);
      ModUnique(k + 1, n, q + 1, 0);
    } else {
      ModUnique(k + 1, n, q, r + 1);
    }
  }

  lemma ModAdd(p: nat, m: nat, n: nat)
    requires n > 0
    ensures (p + m) % n == m % n <==> p % n == 0
  {
    DivMod(p, n);
    DivMod(m, n);
    DivMod(p + m, n);
    var q := p / n;
    if p % n == 0 {
      Distribute(q, m / n, n);
      ModUnique(p + m, n, q + m / n, m % n);
    } else if (p + m) % n == m % n {
      var d: int := (p + m) / n - m / n;
      assert p == d * n by {
        assert (p + m) / n * n - m / n * n == d * n;
      }
      ModUnique(p, n, d, 0);
    }
  }

  lemma ModTwice(a: nat, i: nat, n: nat)
    requires n > 0
    ensures (a % n + i) % n == (a + i) % n
  {
    DivMod(a, n);
    DivMod(a % n + i, n);
    Distribute(a / n, (a % n + i) / n, n);
    ModUnique(a + i, n, a / n + (a % n + i) / n, (a % n + i) % n);
  }
}
