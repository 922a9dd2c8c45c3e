/** Positional notation in any base, least significant digit first. */
module Digits {
  import NonLinear
  import opened Sequences

  function Pow(b: nat, n: nat): (r: nat)
    ensures b > 0 ==> r > 0
  {
    if n == 0 then 1 else Product(b, Pow(b, n - 1))
  }

  function Product(a: nat, b: nat): (r: nat)
    ensures r == a * b && (a > 0 && b > 0 ==> r > 0)
  {
    NonLinear.MulMono(a, 0, b);
    if a > 0 && b > 0 then NonLinear.MulMono(a, 1, b); a * b else a * b
  }

  lemma {:induction false} PowAdd(b: nat, m: nat, n: nat)
    ensures Pow(b, m + n) == Pow(b, m) * Pow(b, n)
    decreases m
  {
    if m > 0 {
      PowAdd(b, m - 1, n);
      NonLinear.MulAssoc(b, Pow(b, m - 1), Pow(b, n));
    }
  }

  lemma {:induction false} PowMono(b: nat, m: nat, n: nat)
    requires b > 0 && m <= n
    ensures Pow(b, m) <= Pow(b, n)
    decreases n
  {
    if m < n {
      PowMono(b, m, n - 1);
      NonLinear.MulGrows(Pow(b, n - 1), b);
    }
  }

  /** The number a digit sequence stands for. */
  ghost function Val(b: nat, d: seq<nat>): int {
    if d == [] then 0 else Val(b, d[..|d| - 1]) + d[|d| - 1] * Pow(b, |d| - 1)
  }

  ghost predicate Digital(b: nat, d: seq<nat>) {
    forall i | 0 <= i < |d| :: d[i] < b
  }

  /** No leading zero: the top digit is not 0. */
  ghost predicate Canonical(b: nat, d: seq<nat>) {
    Digital(b, d) && (d != [] ==> d[|d| - 1] != 0)
  }

  lemma ValStep(b: nat, d: seq<nat>, i: nat)
    requires i < |d|
    ensures Val(b, d[..i + 1]) == Val(b, d[..i]) + d[i] * Pow(b, i)
  {
    assert d[..i + 1][..i] == d[..i];
  }

  lemma {:induction false} ValBound(b: nat, d: seq<nat>)
    requires b > 0 && Digital(b, d)
    ensures 0 <= Val(b, d) < Pow(b, |d|)
    decreases |d|
  {
    if d != [] {
      var k := |d| - 1;
      ValBound(b, d[..k]);
      TopDigit(b, d[k], Pow(b, k));
    }
  }

  lemma TopDigit(b: nat, d: nat, p: nat)
    requires d < b
    ensures 0 <= d * p && d * p + p <= b * p
  {
    NonLinear.MulMono(p, d + 1, b);
    NonLinear.MulMono(p, 0, d);
    NonLinear.Dist(d, 1, p);
  }

  lemma {:induction false} ValZeros(b: nat, d: seq<nat>, n: nat)
    requires n <= |d| && forall i | n <= i < |d| :: d[i] == 0
    ensures Val(b, d) == Val(b, d[..n])
    decreases |d|
  {
    if n == |d| {
      assert d[..n] == d;
    } else {
      var k := |d| - 1;
      ValZeros(b, d[..k], n);
      assert d[..k][..n] == d[..n];
    }
  }

  /** A canonical sequence with n digits stands for at least b^(n-1). */
  lemma CanonicalLarge(b: nat, d: seq<nat>)
    requires b > 0 && Canonical(b, d) && d != []
    ensures Pow(b, |d| - 1) <= Val(b, d)
  {
    var k := |d| - 1;
    ValBound(b, d[..k]);
    NonLinear.MulMono(Pow(b, k), 1, d[k]);
  }

  lemma SameLength(b: nat, x: seq<nat>, y: seq<nat>)
    requires b > 0 && Canonical(b, x) && Canonical(b, y) && Val(b, x) == Val(b, y)
    ensures |x| <= |y|
  {
    if |x| > |y| {
      CanonicalLarge(b, x);
      ValBound(b, y);
      PowMono(b, |y|, |x| - 1);
      assert false;
    }
  }

  /** Digits of a number are determined, given how many there are. */
  lemma {:induction false} DigitsUnique(b: nat, x: seq<nat>, y: seq<nat>)
    requires b > 0 && Digital(b, x) && Digital(b, y) && |x| == |y| && Val(b, x) == Val(b, y)
    ensures x == y
    decreases |x|
  {
    if x != [] {
      var k := |x| - 1;
      var p := Pow(b, k);
      ValBound(b, x[..k]);
      ValBound(b, y[..k]);
      NonLinear.DivModRev(Val(b, x), p, x[k], Val(b, x[..k]));
      NonLinear.DivModRev(Val(b, y), p, y[k], Val(b, y[..k]));
      DigitsUnique(b, x[..k], y[..k]);
      assert x == x[..k] + [x[k]] && y == y[..k] + [y[k]];
    }
  }

  /** Every number has one canonical notation. */
  lemma CanonicalUnique(b: nat, x: seq<nat>, y: seq<nat>)
    requires b > 0 && Canonical(b, x) && Canonical(b, y) && Val(b, x) == Val(b, y)
    ensures x == y
  {
    SameLength(b, x, y);
    SameLength(b, y, x);
    DigitsUnique(b, x, y);
  }

  /** Read from the most significant digit. */
  ghost function Horner(b: nat, s: seq<nat>): int {
    if s == [] then 0 else b * Horner(b, s[..|s| - 1]) + s[|s| - 1]
  }

  lemma {:induction false} ValShift(b: nat, d: seq<nat>, c: nat)
    ensures Val(b, [c] + d) == c + b * Val(b, d)
    decreases |d|
  {
    var e := [c] + d;
    if d == [] {
      assert e[..0] == [] && Pow(b, 0) == 1;
    } else {
      var k := |d| - 1;
      assert e[..|e| - 1] == [c] + d[..k];
      ValShift(b, d[..k], c);
      ShiftAlgebra(b, Val(b, d[..k]), d[k], Pow(b, k));
    }
  }

  lemma ShiftAlgebra(b: int, v: int, d: int, p: int)
    ensures b * (v + d * p) == b * v + d * (b * p)
  {
    NonLinear.Dist(v, d * p, b);
    NonLinear.MulAssoc(d, b, p);
    NonLinear.MulAssoc(b, d, p);
  }

  lemma {:induction false} HornerIsVal(b: nat, s: seq<nat>)
    ensures Horner(b, s) == Val(b, Reversed(s))
    decreases |s|
  {
    if s != [] {
      var k := |s| - 1;
      HornerIsVal(b, s[..k]);
      assert Reversed(s) == [s[k]] + Reversed(s[..k]);
      ValShift(b, Reversed(s[..k]), s[k]);
    }
  }

  lemma {:induction false} HornerBound(b: nat, s: seq<nat>)
    requires b > 0 && Digital(b, s)
    ensures 0 <= Horner(b, s) < Pow(b, |s|)
  {
    HornerIsVal(b, s);
    ValBound(b, Reversed(s));
  }

  /** The canonical notation of n. */
  function Canon(b: nat, n: nat): (d: seq<nat>)
    requires b >= 2
  {
    if n == 0 then []
    else
      NonLinear.DivSmaller(n, b);
      [n % b] + Canon(b, n / b)
  }

  lemma {:induction false} CanonOk(b: nat, n: nat)
    requires b >= 2
    ensures Canonical(b, Canon(b, n)) && Val(b, Canon(b, n)) == n
    decreases n
  {
    if n > 0 {
      var q := n / b;
      NonLinear.DivSmaller(n, b);
      CanonOk(b, q);
      var rest := Canon(b, q);
      CanonVal(b, rest, q, n);
      CanonTop(b, rest, q, n);
    }
  }

  lemma CanonVal(b: nat, rest: seq<nat>, q: nat, n: nat)
    requires b >= 2 && q == n / b && Val(b, rest) == q
    ensures Val(b, [n % b] + rest) == n
  {
    ValShift(b, rest, n % b);
    assert n == b * q + n % b;
  }

  lemma CanonTop(b: nat, rest: seq<nat>, q: nat, n: nat)
    requires b >= 2 && n > 0 && q == n / b && Canonical(b, rest) && (rest == [] <==> q == 0)
    ensures Canonical(b, [n % b] + rest)
  {
    var d := [n % b] + rest;
    if rest == [] {
      assert n == b * q + n % b;
    } else {
      assert d[|d| - 1] == rest[|rest| - 1];
    }
  }

  lemma CanonOf(b: nat, d: seq<nat>)
    requires b >= 2 && Canonical(b, d) && Val(b, d) >= 0
    ensures Canon(b, Val(b, d)) == d
  {
    CanonOk(b, Val(b, d));
    CanonicalUnique(b, Canon(b, Val(b, d)), d);
  }

  /** Larger numbers have at least as many digits. */
  lemma CanonGrows(b: nat, m: nat, n: nat)
    requires b >= 2 && m <= n
    ensures |Canon(b, m)| <= |Canon(b, n)|
  {
    CanonOk(b, m);
    CanonOk(b, n);
    if |Canon(b, m)| > |Canon(b, n)| {
      CanonicalLarge(b, Canon(b, m));
      ValBound(b, Canon(b, n));
      PowMono(b, |Canon(b, n)|, |Canon(b, m)| - 1);
      assert false;
    }
  }

  // ---------- multiplying a number in place ----------

  lemma MulAddStep(b: nat, r: seq<nat>, d: seq<nat>, i: nat, mul: nat, carry: nat, total: int)
    requires b > 0 && i < |r| == |d| && r[..i] == r[..i] && carry + mul * d[i] >= 0
    requires Val(b, r[..i]) + carry * Pow(b, i) == mul * Val(b, d[..i]) + total
    ensures var n := carry + mul * d[i];
            n / b >= 0 && n % b >= 0 &&
            Val(b, r[i := n % b][..i + 1]) + (n / b) * Pow(b, i + 1) == mul * Val(b, d[..i + 1]) + total
  {
    var n: nat := carry + mul * d[i];
    NonLinear.DivNat(n, b);
    var r' := r[i := n % b];
    ValStep(b, r', i);
    ValStep(b, d, i);
    assert r'[..i] == r[..i];
    StepAlgebra(b, n, carry, mul, d[i], Val(b, d[..i]), Pow(b, i));
  }

  lemma StepAlgebra(b: nat, n: int, carry: int, mul: int, d: int, v: int, p: int)
    requires b > 0 && n == carry + mul * d
    ensures (n % b) * p + (n / b) * (b * p) == carry * p + mul * (v + d * p) - mul * v
  {
    NonLinear.Dist(carry, mul * d, p);
    NonLinear.MulAssoc(mul, d, p);
    NonLinear.Dist(v, d * p, mul);
    NonLinear.Dist((n / b) * b, n % b, p);
    NonLinear.MulAssoc(n / b, b, p);
  }

  /** The low i digits are done, and what they hand on is in the carry. */
  ghost predicate MulInv(b: nat, d: seq<nat>, length: nat, mul: nat, add: nat, r: seq<nat>, i: nat, carry: nat) {
    && i <= |d| == |r| && Digital(b, r)
    && (forall k | i <= k < |r| :: r[k] == d[k])
    && Val(b, r[..i]) + carry * Pow(b, i) == mul * Val(b, d[..i]) + add
    && (i >= 1 && i >= length ==> carry != 0 || r[i - 1] != 0)
  }

  lemma MulInvStep(b: nat, d: seq<nat>, length: nat, mul: nat, add: nat, r: seq<nat>, i: nat, carry: nat, n: nat)
    requires b >= 2 && mul >= 1 && i < |d| && MulInv(b, d, length, mul, add, r, i, carry) && n == carry + mul * r[i]
    requires carry != 0 || i < length
    requires length <= |d| && (length > 0 ==> d[length - 1] != 0)
    ensures n / b >= 0 && MulInv(b, d, length, mul, add, r[i := n % b], i + 1, n / b)
  {
    MulAddStep(b, r, d, i, mul, carry, add);
    Nonzero(b, n, carry, mul, d[i]);
  }

  lemma Nonzero(b: nat, n: nat, carry: nat, mul: nat, d: nat)
    requires b >= 2 && mul >= 1 && n == carry + mul * d
    ensures carry != 0 || d != 0 ==> n / b != 0 || n % b != 0
  {
    if d != 0 { NonLinear.MulMono(mul, 1, d); }
  }

  /** At the end of the buffer nothing is left to hand on, since the result fits. */
  lemma NoCarry(b: nat, v: int, carry: nat, p: nat, total: int)
    requires p > 0 && v >= 0 && v + carry * p == total < p
    ensures carry == 0
  {
    if carry != 0 {
      NonLinear.MulMono(p, 1, carry);
      assert false;
    }
  }

  lemma MulAddFull(b: nat, d: seq<nat>, length: nat, mul: nat, add: nat, r: seq<nat>, carry: nat)
    requires b >= 2 && MulInv(b, d, length, mul, add, r, |d|, carry) && mul * Val(b, d) + add < Pow(b, |d|)
    ensures carry == 0 && Val(b, r) == mul * Val(b, d) + add
  {
    assert r[..|d|] == r && d[..|d|] == d;
    ValBound(b, r);
    NoCarry(b, Val(b, r), carry, Pow(b, |d|), mul * Val(b, d) + add);
  }

  lemma MulAddPart(b: nat, d: seq<nat>, length: nat, mul: nat, add: nat, r: seq<nat>, i: nat)
    requires b >= 2 && length <= i && MulInv(b, d, length, mul, add, r, i, 0)
    requires forall k | length <= k < |d| :: d[k] == 0
    ensures Val(b, r) == mul * Val(b, d) + add
  {
    ValZeros(b, r, i);
    ValZeros(b, d, i);
  }

  // digits := digits * mul + add, over the digits in use and as many more as the carry needs
  method MulAdd(b: nat, digits: seq<nat>, length: nat, mul: nat, add: nat) returns (r: seq<nat>, length': nat)
    requires b >= 2 && mul >= 1 && Digital(b, digits) && length <= |digits|
    requires length > 0 ==> digits[length - 1] != 0
    requires forall i | length <= i < |digits| :: digits[i] == 0
    requires mul * Val(b, digits) + add < Pow(b, |digits|)
    ensures Digital(b, r) && length <= length' <= |r| == |digits|
    ensures length' > 0 ==> r[length' - 1] != 0
    ensures forall i | length' <= i < |r| :: r[i] == 0
    ensures Val(b, r) == mul * Val(b, digits) + add
  {
    r := digits;
    var carry: nat := add;
    var i: nat := 0;
    while (carry != 0 || i < length) && i < |digits|
      invariant MulInv(b, digits, length, mul, add, r, i, carry)
      decreases |digits| - i
    {
      NonLinear.MulMono(mul, 0, r[i]);
      var n: nat := carry + mul * r[i];
      MulInvStep(b, digits, length, mul, add, r, i, carry, n);
      r := r[i := n % b];
      carry := n / b;
      i := i + 1;
    }
    length' := i;
    if i == |digits| {
      MulAddFull(b, digits, length, mul, add, r, carry);
    } else {
      MulAddPart(b, digits, length, mul, add, r, i);
    }
    assert carry == 0;
  }
}
