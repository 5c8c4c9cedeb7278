/** Products and quotients of natural numbers, free of any particular constants. */
module Arith {
  lemma ScaleStrict(a: nat, b: nat, e: nat)
    requires a < b && e > 0
    ensures a * e < b * e
  {
  }

  lemma ScaleWeak(a: nat, b: nat, e: nat)
    requires a <= b
    ensures a * e <= b * e
  {
  }

  lemma Mul4(a: nat, b: nat, c: nat, d: nat)
    ensures (a * b) * (c * d) == (a * c) * (b * d)
  {
    calc {
      (a * b) * (c * d);
      a * (b * (c * d));
      a * (c * (b * d));
      (a * c) * (b * d);
    }
  }

  lemma ModUnique(n: int, d: int, q: int, r: int)
    requires n == d * q + r && 0 <= r < d
    ensures n % d == r && n / d == q
  {
    var q', r' := n / d, n % d;
    assert d * (q - q') == r' - r;
    assert q - q' >= 1 ==> d * (q - q') >= d;
    assert q - q' <= -1 ==> d * (q - q') <= -d;
  }

  lemma DivMod(n: nat, d: nat)
    requires d > 0
    ensures (n / d) * d + n % d == n
  {
  }

  lemma DivLess(n: nat, d: nat)
    requires n > 0 && d >= 2
    ensures n / d < n
  {
    DivMod(n, d);
    ScaleWeak(2, d, n / d);
  }

  lemma ModSmall(n: nat, d: nat)
    requires n < d
    ensures n % d == n
  {
    ModUnique(n, d, 0, n);
  }

  lemma DivBracket(n: nat, d: nat)
    requires d > 0
    ensures (n / d) * d <= n < (n / d + 1) * d
  {
    assert n == d * (n / d) + n % d;
  }

  lemma NestedQuotient(n: nat, c: nat, p: nat, m: nat, s: nat, q: nat, r: nat)
    requires n == c * m + s && s < c && m == p * q + r && r < p
    ensures n == (c * p) * q + (c * r + s) && c * r + s < c * p
  {
    assert c * (p * q + r) == c * (p * q) + c * r == (c * p) * q + c * r;
    ScaleWeak(r, p - 1, c);
    assert (p - 1) * c == c * p - c;
  }

  lemma DivDiv(n: nat, c: nat, p: nat)
    requires p > 0 && c > 0
    ensures (n / c) / p == n / (c * p) && n % (c * p) == n % c + c * ((n / c) % p)
  {
    var q, r := (n / c) / p, (n / c) % p;
    NestedQuotient(n, c, p, n / c, n % c, q, r);
    ModUnique(n, c * p, q, c * r + n % c);
  }

  lemma DivAntitone(n: nat, a: nat, b: nat)
    requires 0 < a <= b
    ensures n / b <= n / a
  {
    DivBracket(n, a);
    DivBracket(n, b);
    if n / b > n / a {
      ScaleWeak(n / a + 1, n / b, a);
      ScaleWeak(a, b, n / b);
    }
  }

  /** Cutting a scaled number to `d` loses nothing exactly when it is below `d`. */
  lemma ScaledCutExact(q: nat, p: nat, d: nat)
    requires p > 0 && d > 0
    ensures p * (q % d) == q * p <==> q < d
    ensures p * (q % d) <= q * p
  {
    if q < d {
      ModSmall(q, d);
    } else {
      ScaleStrict(q % d, q, p);
    }
  }

  lemma GapProduct(x: nat, y: nat, p: nat, r: nat, c: nat)
    requires p >= c * r && c * x > y && r > 0
    ensures x * p > y * r
  {
    ScaleWeak(c * r, p, x);
    ScaleStrict(y, c * x, r);
    assert x * (c * r) == (c * x) * r;
  }

  /** A quotient of `u` times its divisor brackets `u`, whatever powers both are scaled by. */
  lemma ScaledBracket(u: nat, m: nat, q: nat, p: nat, t: nat, w: nat, target: nat, e: nat)
    requires q * m <= u < (q + 1) * m && e > 0 && w == q * p && target == m * t && e == p * t
    ensures w * target < (u + 1) * e <= (w + p) * target
  {
    Mul4(q, p, m, t);
    Mul4(q + 1, p, m, t);
    ScaleStrict(q * m, u + 1, e);
    ScaleWeak(u + 1, (q + 1) * m, e);
    assert (q + 1) * p == w + p;
  }

  /** A greater divisor gives a strictly smaller quotient as long as the quotient is not small. */
  lemma QuotientStrict(u: nat, m: nat, n: nat)
    requires 0 < m < n && u / m >= m
    ensures u / n < u / m
  {
    var q, r := u / m, u / n;
    DivBracket(u, m);
    DivBracket(u, n);
    if q <= r {
      ScaleWeak(q, r, n);
      ScaleWeak(m + 1, n, q);
    }
  }

  /** One digit of an addition with carry. */
  lemma CarryStep(p: nat, d: nat, da: nat, db: nat, carry: nat, x: nat, y: nat)
    requires d + p * carry == da + db
    ensures (d + p * ((x + y + carry) % 256)) + (256 * p) * ((x + y + carry) / 256) == (da + p * x) + (db + p * y)
  {
    var sum := x + y + carry;
    assert sum == sum % 256 + 256 * (sum / 256);
    calc {
      p * (sum % 256) + (256 * p) * (sum / 256);
      p * (sum % 256) + p * (256 * (sum / 256));
      p * (sum % 256 + 256 * (sum / 256));
      p * (x + y + carry);
      p * x + p * y + p * carry;
    }
  }

  /** The leading digit decides. */
  lemma LeadingDecides(p: nat, x: nat, y: nat, a: nat, b: nat, h: nat)
    requires x < p && y < p && a != b
    ensures x + a * p + h > y + b * p + h <==> a > b
    ensures x + a * p + h != y + b * p + h
  {
    if a > b {
      ScaleWeak(b + 1, a, p);
    } else {
      ScaleWeak(a + 1, b, p);
    }
  }
}
