// Greatest common divisors, for the drift theorem of the PWM driver.
module CommonDivisors {
  import opened Arithmetic

  function Gcd(a: nat, b: nat): nat
    decreases b
  {
    if b == 0 then a else Gcd(b, a % b)
  }

  predicate Divides(d: int, n: int) {
    d != 0 && n % d == 0
  }

  lemma DividesWitness(d: int, n: int, k: int)
    requires d > 0 && n == d * k
    ensures Divides(d, n)
  {
    var q, r := n / d, n % d;
    assert n == d * q + r;
    assert r == d * (k - q);
    if k - q >= 1 { MulLeq(1, k - q, d); }
    if k - q <= -1 { MulLeq(k - q, -1, d); }
  }

  // The greatest common divisor divides both numbers and is a combination of them.
  lemma {:induction false} Bezout(a: nat, b: nat) returns (x: int, y: int, p: int, q: int)
    requires a > 0 || b > 0
    ensures Gcd(a, b) > 0 && a == Gcd(a, b) * p && b == Gcd(a, b) * q
    ensures x * a + y * b == Gcd(a, b)
    decreases b
  {
    if b == 0 {
      x, y, p, q := 1, 0, 1, 0;
    } else {
      var u, v, r, s := Bezout(b, a % b);
      var g, k, m := Gcd(b, a % b), a / b, a % b;
      assert a == b * k + m;
      x, y, p, q := v, u - v * k, r * k + s, r;
      BezoutStep(a, b, k, m, u, v, g, r, s);
    }
  }

  lemma BezoutStep(a: int, b: int, k: int, m: int, u: int, v: int, g: int, r: int, s: int)
    requires a == b * k + m && u * b + v * m == g && b == g * r && m == g * s
    ensures v * a + (u - v * k) * b == g
    ensures a == g * (r * k + s)
  {
    assert v * a == v * (b * k) + v * m;
    assert (u - v * k) * b == u * b - v * (b * k);
    assert (g * r) * k == g * (r * k);
  }

  // f divides h * u exactly when f / gcd(f, u) divides h.
  lemma DividesProduct(f: nat, u: nat, h: int)
    requires f > 0
    ensures Gcd(f, u) > 0 && f / Gcd(f, u) > 0
    ensures Divides(f, h * u) <==> Divides(f / Gcd(f, u), h)
  {
    var x, y, p, q := Bezout(f, u);
    var g := Gcd(f, u);
    Factor(f, g, p);
    if Divides(p, h) {
      var k := h / p;
      assert h == p * k;
      Up(f, u, h, g, p, q, k);
    }
    if Divides(f, h * u) {
      var k := h * u / f;
      assert h * u == f * k;
      Down(f, u, h, g, p, q, k, x, y);
    }
  }

  lemma Factor(f: int, g: int, p: int)
    requires f > 0 && g > 0 && f == g * p
    ensures p > 0 && f / g == p
  {
    if p <= 0 { MulLeq(p, 0, g); }
    var k, r := f / g, f % g;
    assert f == g * k + r;
    assert r == g * (p - k);
    if p - k >= 1 { MulLeq(1, p - k, g); }
    if p - k <= -1 { MulLeq(p - k, -1, g); }
  }

  lemma Up(f: int, u: int, h: int, g: int, p: int, q: int, k: int)
    requires f > 0 && f == g * p && u == g * q && h == p * k
    ensures Divides(f, h * u)
  {
    assert h * u == (p * k) * (g * q) == (g * p) * (k * q);
    DividesWitness(f, h * u, k * q);
  }

  lemma Down(f: int, u: int, h: int, g: int, p: int, q: int, k: int, x: int, y: int)
    requires f > 0 && g > 0 && p > 0 && f == g * p && u == g * q && h * u == f * k
    requires x * f + y * u == g
    ensures Divides(p, h)
  {
    // h * q == p * k and x * p + y * q == 1, so h == p * (h * x + y * k).
    assert g * (h * q) == h * (g * q) == g * (p * k);
    CancelFactor(g, h * q, p * k);
    assert g * (x * p + y * q) == x * (g * p) + y * (g * q) == g * 1;
    CancelFactor(g, x * p + y * q, 1);
    assert h == h * (x * p + y * q) == p * (h * x) + y * (h * q);
    assert y * (p * k) == p * (y * k);
    DividesWitness(p, h, h * x + y * k);
  }

  lemma CancelFactor(g: int, a: int, b: int)
    requires g > 0 && g * a == g * b
    ensures a == b
  {
    if a < b { MulLeq(a + 1, b, g); }
    if b < a { MulLeq(b + 1, a, g); }
  }
}
