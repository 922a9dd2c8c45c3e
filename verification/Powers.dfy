/** Powers of two and bitwise operations on natural numbers. */
module Powers {
  import NonLinear

  function P2(n: nat): (r: nat)
    ensures r > 0
  {
    if n == 0 then 1 else 2 * P2(n - 1)
  }

  lemma {:induction false} P2Add(a: nat, b: nat)
    ensures P2(a + b) == P2(a) * P2(b)
    decreases a
  {
    if a > 0 {
      P2Add(a - 1, b);
      NonLinear.MulAssoc(2, P2(a - 1), P2(b));
    }
  }

  lemma {:induction false} P2Mono(a: nat, b: nat)
    requires a <= b
    ensures P2(a) <= P2(b)
    decreases b
  {
    if a < b { P2Mono(a, b - 1); }
  }

  lemma P2Strict(a: nat, b: nat)
    requires a < b
    ensures P2(a) < P2(b)
  {
    P2Mono(a + 1, b);
  }

  lemma P2Order(a: nat, b: nat)
    requires P2(a) < P2(b)
    ensures a < b
  {
    if b <= a {
      P2Mono(b, a);
      assert false;
    }
  }

  lemma P2Injective(a: nat, b: nat)
    requires P2(a) == P2(b)
    ensures a == b
  {
    if a < b {
      P2Strict(a, b);
    } else if b < a {
      P2Strict(b, a);
    }
  }

  /** Bitwise or. */
  function Or(x: nat, y: nat): nat {
    if x == 0 then y else if y == 0 then x else (if x % 2 == 1 || y % 2 == 1 then 1 else 0) + 2 * Or(x / 2, y / 2)
  }

  /** Where no bit is set in both, or is addition. */
  lemma {:induction false} OrDisjoint(x: nat, y: nat, t: nat)
    requires x < P2(t) && y % P2(t) == 0
    ensures Or(x, y) == x + y
    decreases t
  {
    if t > 0 && x != 0 && y != 0 {
      var q, p := y / P2(t), P2(t - 1);
      assert y == P2(t) * q;
      assert y == 2 * (p * q) by { NonLinear.MulAssoc(2, p, q); }
      NonLinear.DivMod(y / 2, p, q, 0);
      OrDisjoint(x / 2, y / 2, t - 1);
    }
  }

  lemma {:induction false} OrComm(x: nat, y: nat)
    ensures Or(x, y) == Or(y, x)
    decreases x
  {
    if x != 0 && y != 0 { OrComm(x / 2, y / 2); }
  }

  lemma P2Eight()
    ensures P2(8) == 256
  {
    assert P2(4) == 16;
    P2Add(4, 4);
  }

  /** Filling in low bits that are all clear. */
  lemma OrLow(n: nat, b: nat, t: nat, m: nat)
    requires b < P2(t) && m == n * P2(t)
    ensures Or(m, b) == m + b
  {
    NonLinear.DivMod(m, P2(t), n, 0);
    OrDisjoint(b, m, t);
    OrComm(m, b);
  }
}
