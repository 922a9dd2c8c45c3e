/** Elementary facts about multiplication and division that the other modules build on. */
module NonLinear {

  lemma {:induction false} MulGrows(q: nat, d: nat)
    requires d > 0
    ensures q <= d * q
    decreases d
  {
    if d > 1 {
      MulGrows(q, d - 1);
      assert d * q == (d - 1) * q + q;
    }
  }

  lemma MulMono(d: nat, a: int, b: int)
    requires a <= b
    ensures d * a <= d * b
  {
    assert d * b - d * a == d * (b - a);
  }

  lemma DivLess(a: nat, d: nat)
    requires d > 0
    ensures a / d <= a
  {
    MulGrows(a / d, d);
  }

  lemma DivAtLeast(a: nat, d: int, k: int)
    requires d > 0 && a >= k * d
    ensures a / d >= k
  {
    if a / d < k {
      MulMono(d, a / d + 1, k);
      assert false;
    }
  }

  lemma DivSmaller(a: nat, d: int)
    requires a > 0 && d >= 2
    ensures 0 <= a / d < a
  {
    DivNat(a, d);
    var q := a / d;
    MulMono(q, 2, d);
  }

  lemma ZeroMod(d: int)
    requires d > 0
    ensures 0 % d == 0
  {
    DivMod(0, d, 0, 0);
  }

  lemma DivNat(a: nat, d: int)
    requires d > 0
    ensures a / d >= 0
  {
  }

  /** Quotient and remainder are determined by their equation. */
  lemma DivMod(a: int, d: int, q: int, r: int)
    requires d > 0 && a == d * q + r && 0 <= r < d
    ensures a / d == q && a % d == r
  {
    var q2, r2 := a / d, a % d;
    assert a == d * q2 + r2;
    if q2 > q {
      assert d * q2 >= d * q + d by { MulMono(d, q + 1, q2); }
    } else if q2 < q {
      assert d * q >= d * q2 + d by { MulMono(d, q2 + 1, q); }
    }
  }

  lemma DivModRev(a: int, d: int, q: int, r: int)
    requires d > 0 && r + q * d == a && 0 <= r < d
    ensures a / d == q && a % d == r
  {
    DivMod(a, d, q, r);
  }

  lemma Dist(a: int, b: int, x: int)
    ensures (a + b) * x == a * x + b * x
  {
  }

  lemma MulAssoc(a: int, b: int, c: int)
    ensures (a * b) * c == a * (b * c)
  {
  }

  /** Reducing one summand early changes nothing. */
  lemma ModAdd(u: int, v: int, d: int)
    requires d > 0
    ensures (u % d + v) % d == (u + v) % d
  {
    var w := u % d + v;
    var q := u / d;
    assert u + v == d * q + w;
    assert w == d * (w / d) + w % d;
    assert u + v == d * (q + w / d) + w % d by { assert d * (q + w / d) == d * q + d * (w / d); }
    DivMod(u + v, d, q + w / d, w % d);
  }

  lemma ModWrap(u: int, d: int)
    requires d > 0
    ensures (u + d) % d == u % d
  {
    var q := u / d;
    assert u + d == d * (q + 1) + u % d by { assert d * (q + 1) == d * q + d; }
    DivMod(u + d, d, q + 1, u % d);
  }

  lemma DivDiv(a: nat, p: int, q: int)
    requires p > 0 && q > 0
    ensures a / p / q == a / (q * p)
  {
    var m := a / p;
    var h, l := m / q, m % q;
    assert a == p * (q * h + l) + a % p;
    assert p * (q * h + l) == (q * p) * h + p * l by { Dist(q * h, l, p); MulAssoc(p, q, h); }
    MulMono(p, l + 1, q);
    assert p * (l + 1) == p * l + p;
    MulMono(p, 0, l);
    DivMod(a, q * p, h, p * l + a % p);
  }

  /** Adding the negation is subtracting. */
  lemma ModSub(x: int, y: int, z: int, d: int)
    requires d > 0 && z == (d - y) % d
    ensures (x + z) % d == (x - y) % d
  {
    ModAdd(d - y, x, d);
    ModWrap(x - y, d);
  }

  lemma ModMultiple(u: int, d: int, m: int)
    requires d > 0
    ensures (u + d * m) % d == u % d
  {
    var q := u / d;
    assert u + d * m == d * (q + m) + u % d by { assert d * (q + m) == d * q + d * m; }
    DivMod(u + d * m, d, q + m, u % d);
  }

  lemma TwiceIsEven(x: nat)
    ensures 2 * x % 2 == 0
  {
  }

  lemma CancelLess(x: int, y: int, s: nat)
    requires x * s < y * s
    ensures x < y
  {
    if x >= y { MulMono(s, y, x); }
  }
}
