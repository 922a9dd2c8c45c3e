/** 256-bit unsigned integers as eight 32-bit limbs (src/arith_uint256.h, src/arith_uint256.cpp). */
module ArithUint256 {
  import NonLinear
  import opened Powers

  const BASE := 0x1_0000_0000
  const TWO64 := 0x1_0000_0000_0000_0000
  const WIDTH := 8

  /** BASE to the power k. */
  ghost function B(k: nat): (r: nat)
    ensures r > 0
  {
    if k == 0 then 1 else BASE * B(k - 1)
  }

  /** The number a limb vector stands for, least significant limb first. */
  ghost function Val(s: seq<nat>): nat {
    if s == [] then 0 else Val(s[..|s| - 1]) + s[|s| - 1] * B(|s| - 1)
  }

  ghost predicate Limbs(s: seq<nat>) {
    forall i | 0 <= i < |s| :: s[i] < BASE
  }

  /** One more limb. */
  lemma ValStep(s: seq<nat>, i: nat)
    requires i < |s|
    ensures Val(s[..i + 1]) == Val(s[..i]) + s[i] * B(i)
  {
    assert s[..i + 1][..i] == s[..i];
  }

  lemma {:induction false} ValBound(s: seq<nat>)
    requires Limbs(s)
    ensures Val(s) < B(|s|)
    decreases |s|
  {
    if s != [] {
      var k := |s| - 1;
      ValBound(s[..k]);
      NonLinear.MulMono(B(k), s[k] + 1, BASE);
      assert B(k) * (s[k] + 1) == s[k] * B(k) + B(k);
    }
  }

  lemma Recombine(n: nat, x: nat)
    ensures (n / BASE) * (BASE * x) + (n % BASE) * x == n * x
  {
    var q, m := n / BASE, n % BASE;
    NonLinear.Dist(BASE * q, m, x);
    NonLinear.MulAssoc(q, BASE, x);
  }

  /** Writing limb i of r, with the rest of the number in a carry. */
  lemma CarryStep(r: seq<nat>, i: nat, n: nat)
    requires i < |r|
    ensures var r' := r[i := n % BASE];
            Val(r'[..i + 1]) + (n / BASE) * B(i + 1) == Val(r[..i]) + n * B(i)
  {
    var r' := r[i := n % BASE];
    ValStep(r', i);
    assert r'[..i] == r[..i];
    Recombine(n, B(i));
  }

  /** The limbs and the final carry are remainder and quotient. */
  lemma CarryOut(r: seq<nat>, carry: nat, total: int)
    requires Limbs(r) && Val(r) + carry * B(|r|) == total
    ensures Val(r) == total % B(|r|) && carry == total / B(|r|)
  {
    ValBound(r);
    NonLinear.DivModRev(total, B(|r|), carry, Val(r));
  }

  /** Changing one limb. */
  lemma {:induction false} ValUpdate(s: seq<nat>, i: nat, v: nat)
    requires i < |s|
    ensures Val(s[i := v]) == Val(s) - s[i] * B(i) + v * B(i)
    decreases |s|
  {
    var last := |s| - 1;
    if i == last {
      assert s[i := v][..last] == s[..last];
    } else {
      assert s[i := v][..last] == s[..last][i := v];
      ValUpdate(s[..last], i, v);
    }
  }

  lemma {:induction false} ValZero(s: seq<nat>)
    requires forall i | 0 <= i < |s| :: s[i] == 0
    ensures Val(s) == 0
    decreases |s|
  {
    if s != [] { ValZero(s[..|s| - 1]); }
  }

  lemma {:induction false} BAdd(a: nat, b: nat)
    ensures B(a + b) == B(a) * B(b)
    decreases a
  {
    if a > 0 {
      BAdd(a - 1, b);
      NonLinear.MulAssoc(BASE, B(a - 1), B(b));
    }
  }

  lemma SplitAlgebra(m: nat, hi: nat, x: nat, p: nat)
    ensures m * hi + x * (m * p) == m * (hi + x * p)
  {
    NonLinear.MulAssoc(m, x, p);
    NonLinear.MulAssoc(x, m, p);
    NonLinear.Dist(hi, x * p, m);
  }

  /** Low and high limbs. */
  lemma {:induction false} ValSplit(s: seq<nat>, m: nat)
    requires m <= |s|
    ensures Val(s) == Val(s[..m]) + B(m) * Val(s[m..])
    decreases |s| - m
  {
    if m == |s| {
      assert s[..m] == s && s[m..] == [];
    } else {
      var k := |s| - 1;
      ValSplit(s[..k], m);
      SplitTop(s, m);
    }
  }

  lemma DropEnds(s: seq<nat>, m: nat)
    requires m < |s|
    ensures s[m..][..|s[m..]| - 1] == s[..|s| - 1][m..]
  {
    var a, b := s[m..][..|s[m..]| - 1], s[..|s| - 1][m..];
    assert |a| == |b| && forall i | 0 <= i < |a| :: a[i] == b[i];
  }

  lemma ValLast(s: seq<nat>)
    requires s != []
    ensures Val(s) == Val(s[..|s| - 1]) + s[|s| - 1] * B(|s| - 1)
  {
  }

  lemma SplitTop(s: seq<nat>, m: nat)
    requires m < |s|
    requires var t := s[..|s| - 1]; Val(t) == Val(t[..m]) + B(m) * Val(t[m..])
    ensures Val(s) == Val(s[..m]) + B(m) * Val(s[m..])
  {
    var k := |s| - 1;
    var t := s[..k];
    assert t[..m] == s[..m];
    DropEnds(s, m);
    ValLast(s[m..]);
    BAdd(m, k - m);
    SplitAlgebra(B(m), Val(t[m..]), s[k], B(k - m));
  }

  // ---------- powers of two and bit operations on limbs ----------

  lemma P2Limb()
    ensures P2(8) == 256 && P2(16) == 65536 && P2(32) == BASE
  {
    assert P2(4) == 16;
    P2Add(4, 4);
    P2Add(8, 8);
    P2Add(16, 16);
  }

  lemma {:induction false} BIsP2(k: nat)
    ensures B(k) == P2(32 * k)
    decreases k
  {
    if k > 0 {
      BIsP2(k - 1);
      P2Limb();
      P2Add(32, 32 * (k - 1));
    }
  }

  /** x << t in 32 bits, for t < 32. */
  function Shl(x: nat, t: nat): (r: nat)
    ensures r < BASE
  {
    x * P2(t) % BASE
  }

  /** x >> t. */
  function Shr(x: nat, t: nat): nat {
    NonLinear.DivNat(x, P2(t));
    x / P2(t)
  }

  /** What a 32-bit left shift keeps and what it pushes out. */
  lemma ShiftParts(x: nat, t: nat)
    requires x < BASE && 0 < t < 32
    ensures x * P2(t) == Shl(x, t) + BASE * Shr(x, 32 - t)
    ensures Shr(x, 32 - t) < P2(t) && Shl(x, t) % P2(t) == 0 && Shl(x, t) <= BASE - P2(t)
  {
    P2Limb();
    P2Add(t, 32 - t);
    HalvesOf(x, P2(t), P2(32 - t));
  }

  lemma HalvesOf(x: nat, p: nat, c: nat)
    requires p > 0 && c > 0 && p * c == BASE && x < BASE
    ensures x * p == x * p % BASE + BASE * (x / c)
    ensures x / c < p && x * p % BASE % p == 0 && x * p % BASE <= BASE - p
  {
    var h, l := x / c, x % c;
    ShiftBounds(p, c, l);
    ShiftAlgebra(x, p, c, h, l);
    KeptPart(x * p, p, h, l);
    QuotientBound(x, c, p);
  }

  lemma KeptPart(n: nat, p: nat, h: nat, l: nat)
    requires p > 0 && n == BASE * h + l * p && 0 <= l * p <= BASE - p
    ensures n % BASE == l * p && n % BASE % p == 0
  {
    NonLinear.DivMod(n, BASE, h, l * p);
    NonLinear.DivMod(l * p, p, l, 0);
  }

  lemma ShiftBounds(p: nat, c: nat, l: nat)
    requires p * c == BASE && p > 0 && l < c
    ensures 0 <= l * p <= BASE - p
  {
    NonLinear.MulMono(p, l + 1, c);
    assert p * (l + 1) == l * p + p;
  }

  lemma ShiftAlgebra(x: nat, p: nat, c: nat, h: nat, l: nat)
    requires p * c == BASE && x == c * h + l
    ensures x * p == BASE * h + l * p
  {
    NonLinear.Dist(c * h, l, p);
    assert (c * h) * p == (p * c) * h by { NonLinear.MulAssoc(p, c, h); }
  }

  lemma QuotientBound(x: nat, c: nat, p: nat)
    requires c > 0 && x < p * c
    ensures x / c < p
  {
    var h := x / c;
    if h >= p {
      NonLinear.MulMono(c, p, h);
      assert false;
    }
  }

  // ---------- operator<<= ----------

  /** The two writes that shifting limb x into position p makes. */
  function ShlWrite(pn: seq<nat>, p: nat, x: nat, t: nat): seq<nat>
    requires |pn| == WIDTH && t < 32
  {
    var one := if p + 1 < WIDTH && t != 0 then pn[p + 1 := Or(pn[p + 1], Shr(x, 32 - t))] else pn;
    if p < WIDTH then one[p := Or(one[p], Shl(x, t))] else one
  }

  ghost predicate Unwritten(pn: seq<nat>, p: nat, bound: nat) {
    && (forall i | p < i < |pn| :: pn[i] == 0)
    && (p < |pn| ==> pn[p] < bound)
  }

  lemma ShlLimbs(pn: seq<nat>, p: nat, x: nat, t: nat)
    requires |pn| == WIDTH && Limbs(pn) && x < BASE && t < 32 && Unwritten(pn, p, P2(t))
    ensures var r := ShlWrite(pn, p, x, t);
            |r| == WIDTH && Limbs(r) && Unwritten(r, p + 1, P2(t))
    ensures p < WIDTH ==> ShlWrite(pn, p, x, t)[p] == pn[p] + Shl(x, t)
    ensures p + 1 < WIDTH && t != 0 ==> ShlWrite(pn, p, x, t)[p + 1] == Shr(x, 32 - t)
  {
    if t != 0 {
      ShiftParts(x, t);
      if p < WIDTH { OrDisjoint(pn[p], Shl(x, t), t); }
    } else if p < WIDTH {
      assert Shl(x, 0) == x;
    }
  }

  /** The part of the shifted limb that falls off the top, in units of B(WIDTH). */
  ghost function Lost(p: nat, x: nat, t: nat): nat
    requires t < 32
  {
    if p + 1 < WIDTH || (p < WIDTH && t == 0) then 0
    else if p < WIDTH then Shr(x, 32 - t)
    else x * P2(t) * B(p - WIDTH)
  }

  lemma ShlStep(pn: seq<nat>, p: nat, x: nat, t: nat)
    requires |pn| == WIDTH && Limbs(pn) && x < BASE && t < 32 && Unwritten(pn, p, P2(t))
    ensures Val(ShlWrite(pn, p, x, t)) + Lost(p, x, t) * B(WIDTH) == Val(pn) + x * P2(t) * B(p)
  {
    if p >= WIDTH {
      ShlBeyond(p, x * P2(t));
    } else if t == 0 {
      ShlWhole(pn, p, x);
    } else if p + 1 == WIDTH {
      ShlTop(pn, p, x, t);
    } else {
      ShlInside(pn, p, x, t);
    }
  }

  lemma ShlBeyond(p: nat, n: int)
    requires p >= WIDTH
    ensures n * B(p - WIDTH) * B(WIDTH) == n * B(p)
  {
    BAdd(p - WIDTH, WIDTH);
    NonLinear.MulAssoc(n, B(p - WIDTH), B(WIDTH));
  }

  lemma WriteOne(pn: seq<nat>, p: nat, v: nat, lost: int, gain: int)
    requires p < |pn| && v * B(p) + lost == pn[p] * B(p) + gain
    ensures Val(pn[p := v]) + lost == Val(pn) + gain
  {
    ValUpdate(pn, p, v);
  }

  lemma WriteTwo(pn: seq<nat>, p: nat, u: nat, v: nat, gain: int)
    requires p + 1 < |pn| && pn[p + 1] == 0 && v * B(p) + u * B(p + 1) == pn[p] * B(p) + gain
    ensures Val(pn[p + 1 := u][p := v]) == Val(pn) + gain
  {
    ValUpdate(pn, p + 1, u);
    ValUpdate(pn[p + 1 := u], p, v);
  }

  lemma ShlWhole(pn: seq<nat>, p: nat, x: nat)
    requires |pn| == WIDTH && Limbs(pn) && x < BASE && Unwritten(pn, p, 1) && p < WIDTH
    ensures Val(ShlWrite(pn, p, x, 0)) == Val(pn) + x * B(p)
  {
    assert pn[p] == 0 && Shl(x, 0) == x;
    assert ShlWrite(pn, p, x, 0) == pn[p := x];
    WriteOne(pn, p, x, 0, x * B(p));
  }

  lemma ShlTop(pn: seq<nat>, p: nat, x: nat, t: nat)
    requires |pn| == WIDTH && Limbs(pn) && x < BASE && 0 < t < 32 && Unwritten(pn, p, P2(t))
    requires p + 1 == WIDTH
    ensures Val(ShlWrite(pn, p, x, t)) + Shr(x, 32 - t) * B(p + 1) == Val(pn) + x * P2(t) * B(p)
  {
    var v := pn[p] + Shl(x, t);
    ShlTopIs(pn, p, x, t, v);
    ShlAlgebra(pn[p], p, x, t);
    WriteOne(pn, p, v, Shr(x, 32 - t) * B(p + 1), x * P2(t) * B(p));
  }

  lemma ShlTopIs(pn: seq<nat>, p: nat, x: nat, t: nat, v: nat)
    requires |pn| == WIDTH && Limbs(pn) && x < BASE && 0 < t < 32 && Unwritten(pn, p, P2(t))
    requires p + 1 == WIDTH && v == pn[p] + Shl(x, t)
    ensures ShlWrite(pn, p, x, t) == pn[p := v]
  {
    ShlLimbs(pn, p, x, t);
  }

  lemma ShlInside(pn: seq<nat>, p: nat, x: nat, t: nat)
    requires |pn| == WIDTH && Limbs(pn) && x < BASE && t < 32 && Unwritten(pn, p, P2(t))
    requires p + 1 < WIDTH && t != 0
    ensures Val(ShlWrite(pn, p, x, t)) == Val(pn) + x * P2(t) * B(p)
  {
    var u, v := Shr(x, 32 - t), pn[p] + Shl(x, t);
    ShlInsideIs(pn, p, x, t, u, v);
    ShlAlgebra(pn[p], p, x, t);
    WriteTwo(pn, p, u, v, x * P2(t) * B(p));
  }

  lemma ShlInsideIs(pn: seq<nat>, p: nat, x: nat, t: nat, u: nat, v: nat)
    requires |pn| == WIDTH && Limbs(pn) && x < BASE && 0 < t < 32 && Unwritten(pn, p, P2(t))
    requires p + 1 < WIDTH && u == Shr(x, 32 - t) && v == pn[p] + Shl(x, t)
    ensures ShlWrite(pn, p, x, t) == pn[p + 1 := u][p := v]
  {
    ShlLimbs(pn, p, x, t);
  }

  lemma ShlAlgebra(o: nat, p: nat, x: nat, t: nat)
    requires x < BASE && 0 < t < 32
    ensures (o + Shl(x, t)) * B(p) + Shr(x, 32 - t) * B(p + 1) == o * B(p) + x * P2(t) * B(p)
  {
    ShiftParts(x, t);
    var h, l := Shr(x, 32 - t), Shl(x, t);
    NonLinear.Dist(o, l, B(p));
    NonLinear.Dist(l, BASE * h, B(p));
    NonLinear.MulAssoc(h, BASE, B(p));
  }

  /** Shifting one more limb of a. */
  lemma ShlGrow(a: seq<nat>, i: nat, k: nat, t: nat)
    requires i < |a|
    ensures Val(a[..i + 1]) * (P2(t) * B(k)) == Val(a[..i]) * (P2(t) * B(k)) + a[i] * P2(t) * B(i + k)
  {
    ValStep(a, i);
    NonLinear.Dist(Val(a[..i]), a[i] * B(i), P2(t) * B(k));
    BAdd(i, k);
    ShuffleFour(a[i], B(i), P2(t), B(k));
  }

  lemma ShuffleFour(a: nat, b: nat, c: nat, d: nat)
    ensures (a * b) * (c * d) == a * c * (b * d)
  {
    NonLinear.MulAssoc(a, b, c * d);
    NonLinear.MulAssoc(b, c, d);
    NonLinear.MulAssoc(c, b, d);
    NonLinear.MulAssoc(a, c, b * d);
  }

  lemma ShlTotal(a: seq<nat>, i: nat, k: nat, t: nat, pn: seq<nat>, lost: nat)
    requires |pn| == WIDTH && Limbs(pn) && t < 32 && Unwritten(pn, i + k, P2(t))
    requires i < |a| && Limbs(a)
    requires Val(pn) + lost * B(WIDTH) == Val(a[..i]) * (P2(t) * B(k))
    ensures Val(ShlWrite(pn, i + k, a[i], t)) + (lost + Lost(i + k, a[i], t)) * B(WIDTH)
         == Val(a[..i + 1]) * (P2(t) * B(k))
  {
    ShlStep(pn, i + k, a[i], t);
    ShlGrow(a, i, k, t);
    NonLinear.Dist(lost, Lost(i + k, a[i], t), B(WIDTH));
  }

  lemma ShiftUnit(shift: nat)
    ensures P2(shift % 32) * B(shift / 32) == P2(shift)
  {
    BIsP2(shift / 32);
    P2Add(shift % 32, 32 * (shift / 32));
  }

  lemma ShlDone(a: seq<nat>, shift: nat, pn: seq<nat>, lost: nat)
    requires |pn| == WIDTH && Limbs(pn)
    requires Val(pn) + lost * B(WIDTH) == Val(a) * (P2(shift % 32) * B(shift / 32))
    ensures Val(pn) == Val(a) * P2(shift) % B(WIDTH)
  {
    ShiftUnit(shift);
    CarryOut(pn, lost, Val(a) * P2(shift));
  }

  // operator<<= on a copy of the limbs
  method ShiftedLeft(a: seq<nat>, shift: nat) returns (pn: seq<nat>)
    requires |a| == WIDTH && Limbs(a)
    ensures |pn| == WIDTH && Limbs(pn) && Val(pn) == Val(a) * P2(shift) % B(WIDTH)
  {
    pn := seq(WIDTH, _ => 0);
    var k, t := shift / 32, shift % 32;
    ValZero(pn);
    ghost var lost := 0;
    for i := 0 to WIDTH
      invariant |pn| == WIDTH && Limbs(pn) && Unwritten(pn, i + k, P2(t)) && lost >= 0
      invariant Val(pn) + lost * B(WIDTH) == Val(a[..i]) * (P2(t) * B(k))
    {
      ghost var was := pn;
      ShlLimbs(pn, i + k, a[i], t);
      ShlTotal(a, i, k, t, pn, lost);
      if i + k + 1 < WIDTH && t != 0 {
        pn := pn[i + k + 1 := Or(pn[i + k + 1], Shr(a[i], 32 - t))];
      }
      if i + k < WIDTH {
        pn := pn[i + k := Or(pn[i + k], Shl(a[i], t))];
      }
      assert pn == ShlWrite(was, i + k, a[i], t);
      lost := lost + Lost(i + k, a[i], t);
    }
    assert a[..WIDTH] == a;
    ShlDone(a, shift, pn, lost);
  }

  // ---------- operator>>= ----------

  /** The two writes that shifting limb i down by k limbs and t bits makes. */
  function ShrWrite(pn: seq<nat>, j: int, x: nat, t: nat): seq<nat>
    requires |pn| == WIDTH && t < 32 && j < WIDTH
  {
    var one := if j - 1 >= 0 && t != 0 then pn[j - 1 := Or(pn[j - 1], Shl(x, 32 - t))] else pn;
    if j >= 0 then one[j := Or(one[j], Shr(x, t))] else one
  }

  ghost predicate Cleared(pn: seq<nat>, j: int, t: nat)
    requires t < 32
  {
    && (forall m | 0 <= m < |pn| && j <= m :: pn[m] == 0)
    && (1 <= j <= |pn| ==> pn[j - 1] < P2(32 - t))
  }

  lemma ShrBound(x: nat, t: nat)
    requires x < BASE && t < 32
    ensures Shr(x, t) < P2(32 - t) && Shr(x, t) < BASE
  {
    if t == 0 {
      P2Limb();
    } else {
      ShiftParts(x, 32 - t);
      P2Limb();
      P2Mono(32 - t, 32);
    }
  }

  lemma ShrLimbs(pn: seq<nat>, j: int, x: nat, t: nat)
    requires |pn| == WIDTH && Limbs(pn) && x < BASE && t < 32 && j < WIDTH && Cleared(pn, j, t)
    ensures var r := ShrWrite(pn, j, x, t);
            |r| == WIDTH && Limbs(r) && Cleared(r, j + 1, t)
    ensures j >= 0 && (j == 0 || t == 0) ==> ShrWrite(pn, j, x, t) == pn[j := Shr(x, t)]
    ensures j >= 1 && t != 0 ==>
              ShrWrite(pn, j, x, t) == pn[j := Shr(x, t)][j - 1 := pn[j - 1] + Shl(x, 32 - t)]
  {
    ShrBound(x, t);
    if j >= 1 && t != 0 {
      ShiftParts(x, 32 - t);
      OrDisjoint(pn[j - 1], Shl(x, 32 - t), 32 - t);
    }
  }

  /** A limb above the cut is kept entirely. */
  lemma ShrAbove(pn: seq<nat>, j: nat, k: nat, x: nat, t: nat)
    requires |pn| == WIDTH && Limbs(pn) && x < BASE && t < 32 && 1 <= j < WIDTH && Cleared(pn, j, t)
    ensures (P2(t) * B(k)) * Val(ShrWrite(pn, j, x, t)) == (P2(t) * B(k)) * Val(pn) + x * B(k + j)
  {
    ShrLimbs(pn, j, x, t);
    if t == 0 {
      WriteOne(pn, j, x, 0, x * B(j));
      MoveAlgebra(Val(pn), x, j, k);
    } else {
      ShrKept(pn, j, x, t);
      ShrAlgebra(Val(pn), j, k, x, t);
    }
  }

  lemma ShrKept(pn: seq<nat>, j: nat, x: nat, t: nat)
    requires |pn| == WIDTH && x < BASE && 0 < t < 32 && 1 <= j < WIDTH && Cleared(pn, j, t)
    ensures Val(pn[j := Shr(x, t)][j - 1 := pn[j - 1] + Shl(x, 32 - t)]) == Val(pn) + x * P2(32 - t) * B(j - 1)
  {
    ShlAlgebra(pn[j - 1], j - 1, x, 32 - t);
    WriteTwo(pn, j - 1, Shr(x, t), pn[j - 1] + Shl(x, 32 - t), x * P2(32 - t) * B(j - 1));
  }

  lemma MoveAlgebra(v: int, x: int, j: nat, k: nat)
    ensures B(k) * (v + x * B(j)) == B(k) * v + x * B(k + j)
  {
    NonLinear.Dist(v, x * B(j), B(k));
    BAdd(k, j);
    NonLinear.MulAssoc(x, B(j), B(k));
  }

  lemma ShrAlgebra(v: int, j: nat, k: nat, x: nat, t: nat)
    requires 0 < t < 32 && j >= 1
    ensures (P2(t) * B(k)) * (v + x * P2(32 - t) * B(j - 1)) == (P2(t) * B(k)) * v + x * B(k + j)
  {
    P2Limb();
    P2Add(t, 32 - t);
    BAdd(k, j - 1);
    ScaleAlgebra(P2(t), P2(32 - t), B(k), B(j - 1), x, v);
  }

  lemma ScaleAlgebra(p: int, c: int, b: int, d: int, x: int, v: int)
    requires p * c == BASE
    ensures (p * b) * (v + x * c * d) == (p * b) * v + x * (BASE * (b * d))
  {
    NonLinear.Dist(v, x * c * d, p * b);
    NonLinear.MulAssoc(x, c, d);
    NonLinear.MulAssoc(x, c * d, p * b);
    assert (c * d) * (p * b) == (p * c) * (b * d) by { Swap(c, d, p, b); }
  }

  lemma Swap(c: int, d: int, p: int, b: int)
    ensures (c * d) * (p * b) == (p * c) * (b * d)
  {
    NonLinear.MulAssoc(c, d, p * b);
    NonLinear.MulAssoc(p, b, d);
    NonLinear.MulAssoc(c, p, b * d);
  }

  /** What is cut off after limb i has been handled. */
  ghost function CutOff(i: nat, k: nat, t: nat, x: nat, cut: int): int {
    if i < k then cut + x * B(i) else if i == k then cut + (x % P2(t)) * B(k) else cut
  }

  ghost predicate CutOk(a: seq<nat>, i: nat, k: nat, t: nat, v: int, cut: int)
    requires i <= |a|
  {
    && Val(a[..i]) == (P2(t) * B(k)) * v + cut
    && if i <= k then v == 0 else 0 <= cut < P2(t) * B(k)
  }

  lemma {:induction false} BMono(i: nat, k: nat)
    requires i <= k
    ensures B(i) <= B(k)
    decreases k
  {
    if i < k { BMono(i, k - 1); }
  }

  /** The limb at the cut is split. */
  lemma CutAt(a: seq<nat>, k: nat, t: nat)
    requires k < |a| && Limbs(a)
    ensures var x: nat := a[k];
            CutOk(a, k + 1, k, t, Shr(x, t), CutOff(k, k, t, x, Val(a[..k])))
  {
    var x: nat := a[k];
    var p, h, l := P2(t), Shr(x, t), x % P2(t);
    ValStep(a, k);
    ValBound(a[..k]);
    assert x == p * h + l;
    NonLinear.Dist(p * h, l, B(k));
    NonLinear.MulMono(B(k), l + 1, p);
    assert B(k) * (l + 1) == l * B(k) + B(k);
    assert (p * h) * B(k) == (p * B(k)) * h by { NonLinear.MulAssoc(p, h, B(k)); NonLinear.MulAssoc(p, B(k), h); }
    CutNonNeg(l, B(k));
  }

  lemma CutNonNeg(l: nat, b: nat)
    ensures l * b >= 0
  {
  }

  lemma ShrTotal(a: seq<nat>, i: nat, k: nat, t: nat, pn: seq<nat>, cut: int)
    requires |pn| == WIDTH && Limbs(pn) && t < 32 && Cleared(pn, i - k, t)
    requires i < |a| <= WIDTH && Limbs(a) && CutOk(a, i, k, t, Val(pn), cut)
    ensures CutOk(a, i + 1, k, t, Val(ShrWrite(pn, i - k, a[i], t)), CutOff(i, k, t, a[i], cut))
  {
    ValStep(a, i);
    if i == k {
      ShrLimbs(pn, 0, a[i], t);
      WriteOne(pn, 0, Shr(a[i], t), 0, Shr(a[i], t));
      CutAt(a, k, t);
    } else if i > k {
      ShrAbove(pn, i - k, k, a[i], t);
    }
  }

  lemma CutBound(a: seq<nat>, k: nat, t: nat, v: nat, cut: int)
    requires Limbs(a) && CutOk(a, |a|, k, t, v, cut)
    ensures 0 <= cut < P2(t) * B(k)
  {
    if |a| <= k {
      assert a[..|a|] == a;
      ValBound(a);
      BMono(|a|, k);
      NonLinear.MulGrows(B(k), P2(t));
    }
  }

  lemma ShrDone(a: seq<nat>, shift: nat, v: nat, cut: int)
    requires Limbs(a) && CutOk(a, |a|, shift / 32, shift % 32, v, cut)
    ensures v == Val(a) / P2(shift)
  {
    assert a[..|a|] == a;
    CutBound(a, shift / 32, shift % 32, v, cut);
    ShiftUnit(shift);
    NonLinear.DivMod(Val(a), P2(shift), v, cut);
  }

  // operator>>= on a copy of the limbs
  method ShiftedRight(a: seq<nat>, shift: nat) returns (pn: seq<nat>)
    requires |a| == WIDTH && Limbs(a)
    ensures |pn| == WIDTH && Limbs(pn) && Val(pn) == Val(a) / P2(shift)
  {
    pn := seq(WIDTH, _ => 0);
    var k, t := shift / 32, shift % 32;
    ValZero(pn);
    ghost var cut := 0;
    for i := 0 to WIDTH
      invariant |pn| == WIDTH && Limbs(pn) && Cleared(pn, i - k, t) && CutOk(a, i, k, t, Val(pn), cut)
    {
      ghost var was := pn;
      ShrLimbs(pn, i - k, a[i], t);
      ShrTotal(a, i, k, t, pn, cut);
      if i - k - 1 >= 0 && t != 0 {
        pn := pn[i - k - 1 := Or(pn[i - k - 1], Shl(a[i], 32 - t))];
      }
      if i - k >= 0 {
        pn := pn[i - k := Or(pn[i - k], Shr(a[i], t))];
      }
      assert pn == ShrWrite(was, i - k, a[i], t);
      cut := CutOff(i, k, t, a[i], cut);
    }
    ShrDone(a, shift, Val(pn), cut);
  }

  // ---------- operator*= ----------

  lemma ProductFits(p: nat, q: nat, carry: nat, o: nat)
    requires p < BASE && q < BASE && carry < BASE && o < BASE
    ensures 0 <= carry + o + p * q < TWO64 && (carry + o + p * q) / BASE < BASE
  {
    NonLinear.MulMono(p, 0, q);
    NonLinear.MulMono(p, q, BASE - 1);
    NonLinear.MulMono(BASE - 1, p, BASE - 1);
  }

  /** One limb of one row of the product. */
  lemma RowStep(a: seq<nat>, b: seq<nat>, i: nat, j: nat, p: nat, carry: nat, start: int)
    requires i + j < |a| && i < |b|
    requires Val(a) + carry * B(i + j) == start + p * Val(b[..i]) * B(j)
    requires carry + a[i + j] + p * b[i] >= 0
    ensures var n := carry + a[i + j] + p * b[i];
            Val(a[i + j := n % BASE]) + (n / BASE) * B(i + j + 1) == start + p * Val(b[..i + 1]) * B(j)
  {
    var x := B(i + j);
    var n: nat := carry + a[i + j] + p * b[i];
    ValUpdate(a, i + j, n % BASE);
    Recombine(n, x);
    RowAlgebra(carry, a[i + j], p * b[i], x);
    RowGrow(b, i, j, p);
  }

  lemma RowAlgebra(c: int, o: int, q: int, x: int)
    ensures (c + o + q) * x == c * x + o * x + q * x
  {
    NonLinear.Dist(c + o, q, x);
    NonLinear.Dist(c, o, x);
  }

  lemma RowGrow(b: seq<nat>, i: nat, j: nat, p: nat)
    requires i < |b|
    ensures p * Val(b[..i + 1]) * B(j) == p * Val(b[..i]) * B(j) + (p * b[i]) * B(i + j)
  {
    ValStep(b, i);
    BAdd(i, j);
    RowGrowAlgebra(p, Val(b[..i]), b[i], B(i), B(j));
  }

  lemma RowGrowAlgebra(p: int, v: int, d: int, x: int, y: int)
    ensures p * (v + d * x) * y == p * v * y + (p * d) * (x * y)
  {
    NonLinear.Dist(v, d * x, p);
    NonLinear.Dist(p * v, p * (d * x), y);
    NonLinear.MulAssoc(p, d, x);
    NonLinear.MulAssoc(p * d, x, y);
  }

  /** The limbs of b above the row's end only touch what wraps away. */
  lemma RowDone(a: seq<nat>, b: seq<nat>, j: nat, m: nat, p: nat, carry: nat, start: nat)
    requires |a| == |b| == m + j && Limbs(a)
    requires Val(a) + carry * B(m + j) == start + p * Val(b[..m]) * B(j)
    ensures Val(a) == (start + p * Val(b) * B(j)) % B(m + j)
  {
    RowTop(b, j, m, p);
    ValBound(a);
    WrapAway(Val(a), carry, p * Val(b[m..]), start + p * Val(b[..m]) * B(j), B(m + j));
  }

  lemma RowTop(b: seq<nat>, j: nat, m: nat, p: nat)
    requires |b| == m + j
    ensures p * Val(b) * B(j) == p * Val(b[..m]) * B(j) + (p * Val(b[m..])) * B(m + j)
  {
    ValSplit(b, m);
    BAdd(m, j);
    RowHigh(p, Val(b[..m]), B(m), Val(b[m..]), B(j));
  }

  lemma WrapAway(v: int, carry: int, high: int, total: int, d: nat)
    requires 0 <= v < d && v + carry * d == total
    ensures v == (total + high * d) % d
  {
    NonLinear.Dist(carry, high, d);
    NonLinear.DivMod(total + high * d, d, carry + high, v);
  }

  lemma RowHigh(p: int, lo: int, m: int, hi: int, y: int)
    ensures p * (lo + m * hi) * y == p * lo * y + (p * hi) * (m * y)
  {
    assert m * hi == hi * m;
    RowGrowAlgebra(p, lo, hi, m, y);
  }

  // the inner loop: add p times b, shifted up by j limbs
  method AddRow(x: seq<nat>, p: nat, b: seq<nat>, j: nat) returns (a: seq<nat>)
    requires |x| == |b| == WIDTH && Limbs(x) && Limbs(b) && p < BASE && j <= WIDTH
    ensures |a| == WIDTH && Limbs(a) && Val(a) == (Val(x) + p * Val(b) * B(j)) % B(WIDTH)
  {
    a := x;
    var carry: nat := 0;
    for i := 0 to WIDTH - j
      invariant |a| == WIDTH && Limbs(a) && carry < BASE
      invariant Val(a) + carry * B(i + j) == Val(x) + p * Val(b[..i]) * B(j)
    {
      ProductFits(p, b[i], carry, a[i + j]);
      RowStep(a, b, i, j, p, carry, Val(x));
      var n: nat := carry + a[i + j] + p * b[i];
      assert n < TWO64;
      a := a[i + j := n % BASE];
      carry := n / BASE;
    }
    RowDone(a, b, j, WIDTH - j, p, carry, Val(x));
  }

  lemma ProductGrow(x: seq<nat>, j: nat, b: nat, acc: nat)
    requires j < |x| && acc == Val(x[..j]) * b % B(WIDTH)
    ensures (acc + x[j] * b * B(j)) % B(WIDTH) == Val(x[..j + 1]) * b % B(WIDTH)
  {
    ValStep(x, j);
    NonLinear.Dist(Val(x[..j]), x[j] * B(j), b);
    assert (x[j] * B(j)) * b == x[j] * b * B(j) by {
      NonLinear.MulAssoc(x[j], B(j), b);
      NonLinear.MulAssoc(x[j], b, B(j));
    }
    NonLinear.ModAdd(Val(x[..j]) * b, x[j] * b * B(j), B(WIDTH));
  }

  // operator*= on a copy of the limbs
  method Multiplied(x: seq<nat>, b: seq<nat>) returns (a: seq<nat>)
    requires |x| == |b| == WIDTH && Limbs(x) && Limbs(b)
    ensures |a| == WIDTH && Limbs(a) && Val(a) == Val(x) * Val(b) % B(WIDTH)
  {
    a := seq(WIDTH, _ => 0);
    ValZero(a);
    ValBound(a);
    for j := 0 to WIDTH
      invariant |a| == WIDTH && Limbs(a) && Val(a) == Val(x[..j]) * Val(b) % B(WIDTH)
    {
      ProductGrow(x, j, Val(b), Val(a));
      a := AddRow(a, x[j], b, j);
    }
    assert x[..WIDTH] == x;
  }

  // ---------- the steps of the in-place operators ----------

  lemma AddStep(r: seq<nat>, x: seq<nat>, y: seq<nat>, i: nat, carry: nat, n: nat)
    requires i < |r| == |x| == |y| && n == carry + x[i] + y[i]
    requires Val(r[..i]) + carry * B(i) == Val(x[..i]) + Val(y[..i])
    ensures Val(r[i := n % BASE][..i + 1]) + (n / BASE) * B(i + 1) == Val(x[..i + 1]) + Val(y[..i + 1])
  {
    CarryStep(r, i, n);
    ValStep(x, i);
    ValStep(y, i);
    RowAlgebra(carry, x[i], y[i], B(i));
  }

  lemma ScaleStep(r: seq<nat>, x: seq<nat>, i: nat, b: nat, carry: nat, n: nat)
    requires i < |r| == |x| && n == carry + b * x[i]
    requires Val(r[..i]) + carry * B(i) == b * Val(x[..i])
    ensures Val(r[i := n % BASE][..i + 1]) + (n / BASE) * B(i + 1) == b * Val(x[..i + 1])
  {
    CarryStep(r, i, n);
    ValStep(x, i);
    ScaleGrow(b, Val(x[..i]), x[i], B(i), carry);
  }

  lemma ScaleGrow(b: int, v: int, d: int, x: int, carry: int)
    ensures b * (v + d * x) == b * v + (carry + b * d) * x - carry * x
  {
    NonLinear.Dist(carry, b * d, x);
    NonLinear.MulAssoc(b, d, x);
    NonLinear.Dist(v, d * x, b);
  }

  lemma IncrementStep(r: seq<nat>, i: nat)
    requires i < |r| && r[i] < BASE
    ensures r[i] + 1 < BASE ==> Val(r[i := r[i] + 1]) == Val(r) + B(i)
    ensures r[i] + 1 == BASE ==> Val(r[i := 0]) + B(i + 1) == Val(r) + B(i)
  {
    ValUpdate(r, i, r[i] + 1);
    ValUpdate(r, i, 0);
    NonLinear.Dist(r[i], 1, B(i));
  }

  lemma Wrap(v: int, total: int, wrapped: bool)
    requires 0 <= v < B(WIDTH) && total == (if wrapped then v + B(WIDTH) else v)
    ensures v == total % B(WIDTH)
  {
    NonLinear.DivMod(total, B(WIDTH), if wrapped then 1 else 0, v);
  }

  lemma IncrementDone(s: seq<nat>, x: nat, wrapped: bool)
    requires |s| == WIDTH && Limbs(s) && Val(s) + (if wrapped then B(WIDTH) else 0) == x + 1
    ensures Val(s) == (x + 1) % B(WIDTH)
  {
    ValBound(s);
    Wrap(Val(s), x + 1, wrapped);
  }

  lemma ComplementStep(x: seq<nat>, r: seq<nat>, i: nat)
    requires i < |x| == |r| && r[i] + x[i] == BASE - 1 && Val(r[..i]) + Val(x[..i]) == B(i) - 1
    ensures Val(r[..i + 1]) + Val(x[..i + 1]) == B(i + 1) - 1
  {
    ValStep(x, i);
    ValStep(r, i);
    NonLinear.Dist(r[i], x[i], B(i));
  }

  lemma DifferenceWraps(x: nat, y: nat, z: nat)
    requires y < B(WIDTH) && z == (B(WIDTH) - y) % B(WIDTH)
    ensures (x + z) % B(WIDTH) == (x - y) % B(WIDTH)
  {
    NonLinear.ModSub(x, y, z, B(WIDTH));
  }

  // ---------- comparison and bit length ----------

  lemma PrefixBelow(x: seq<nat>, i: nat, m: nat)
    requires Limbs(x) && i < |x| && x[i] < m
    ensures Val(x[..i + 1]) < B(i) * m
  {
    ValStep(x, i);
    ValBound(x[..i]);
    NonLinear.MulMono(B(i), x[i] + 1, m);
    assert B(i) * (x[i] + 1) == x[i] * B(i) + B(i);
  }

  lemma PrefixAbove(x: seq<nat>, i: nat, m: nat)
    requires i < |x| && m <= x[i]
    ensures B(i) * m <= Val(x[..i + 1])
  {
    ValStep(x, i);
    NonLinear.MulMono(B(i), m, x[i]);
  }

  /** The highest differing limb decides. */
  lemma TopDecides(x: seq<nat>, y: seq<nat>, i: nat)
    requires |x| == |y| && Limbs(x) && Limbs(y) && i < |x| && x[i] < y[i]
    requires x[i + 1..] == y[i + 1..]
    ensures Val(x) < Val(y)
  {
    PrefixBelow(x, i, y[i]);
    PrefixAbove(y, i, y[i]);
    ValSplit(x, i + 1);
    ValSplit(y, i + 1);
  }

  /** The number of bits when limb pos is the highest one set. */
  lemma TopBits(x: seq<nat>, pos: nat, n: nat)
    requires Limbs(x) && pos < |x| && P2(n) <= x[pos] < P2(n + 1)
    requires forall j | pos < j < |x| :: x[j] == 0
    ensures P2(32 * pos + n) <= Val(x) < P2(32 * pos + n + 1)
  {
    ValSplit(x, pos + 1);
    ValZero(x[pos + 1..]);
    assert Val(x) == Val(x[..pos + 1]);
    PrefixBelow(x, pos, P2(n + 1));
    PrefixAbove(x, pos, P2(n));
    BIsP2(pos);
    P2Add(32 * pos, n);
    P2Add(32 * pos, n + 1);
  }

  lemma BitDecides(x: nat, n: nat)
    requires x < P2(n + 1)
    ensures x / P2(n) % 2 == (if x < P2(n) then 0 else 1)
  {
    if x < P2(n) {
      NonLinear.DivMod(x, P2(n), 0, x);
    } else {
      NonLinear.DivMod(x, P2(n), 1, x - P2(n));
    }
  }

  // ---------- operator/= ----------

  /** No bit at or below position b is set. */
  ghost predicate LowClear(s: seq<nat>, b: int)
    requires b < 32 * |s|
  {
    b >= 0 ==> (forall j | 0 <= j < b / 32 :: s[j] == 0) && s[b / 32] % P2(b % 32 + 1) == 0
  }

  lemma HalfMultiple(y: nat, p: nat)
    requires p > 0 && y % (2 * p) == 0
    ensures y % p == 0 && (y + p) % p == 0
  {
    var q := y / (2 * p);
    assert y == p * (2 * q) by {
      NonLinear.MulAssoc(2, p, q);
      NonLinear.MulAssoc(p, 2, q);
    }
    NonLinear.DivMod(y, p, 2 * q, 0);
    NonLinear.ModWrap(y, p);
  }

  lemma MultipleBelow(y: nat, p: nat, c: nat)
    requires p > 0 && y % p == 0 && y < p * c
    ensures y + p <= p * c
  {
    var q := y / p;
    assert y == p * q;
    if q >= c {
      NonLinear.MulMono(p, c, q);
      assert false;
    }
    NonLinear.MulMono(p, q + 1, c);
    assert p * (q + 1) == p * q + p;
  }

  /** Setting bit b of a limb that has no bit set at or below b. */
  lemma LimbBit(y: nat, t: nat)
    requires t < 32 && y < BASE && y % P2(t + 1) == 0
    ensures Or(y, P2(t)) == y + P2(t) < BASE && (y + P2(t)) % P2(t) == 0 && y % P2(t) == 0
  {
    OrDisjoint(P2(t), y, t + 1);
    OrComm(y, P2(t));
    HalfMultiple(y, P2(t));
    P2Limb();
    P2Add(t + 1, 31 - t);
    MultipleBelow(y, P2(t + 1), P2(31 - t));
  }

  lemma ClearNext(s: seq<nat>, b: nat, v: nat)
    requires b < 32 * |s| && LowClear(s, b) && v % P2(b % 32) == 0
    ensures LowClear(s[b / 32 := v], b - 1)
  {
    var k := b / 32;
    if b % 32 == 0 {
      if b > 0 { ClearLimb(s[k := v], k); }
    } else {
      assert (b - 1) / 32 == k && (b - 1) % 32 + 1 == b % 32;
    }
  }

  lemma ClearLimb(s: seq<nat>, k: nat)
    requires 0 < k < |s| && forall j | 0 <= j < k :: s[j] == 0
    ensures LowClear(s, 32 * k - 1)
  {
    var b := 32 * k - 1;
    assert b / 32 == k - 1;
    NonLinear.ZeroMod(P2(b % 32 + 1));
  }

  lemma ZeroClear(s: seq<nat>, b: nat)
    requires b < 32 * |s| && forall j | 0 <= j < |s| :: s[j] == 0
    ensures LowClear(s, b)
  {
    NonLinear.ZeroMod(P2(b % 32 + 1));
  }

  lemma BitValue(s: seq<nat>, b: nat)
    requires b < 32 * |s|
    ensures Val(s[b / 32 := s[b / 32] + P2(b % 32)]) == Val(s) + P2(b)
  {
    var k := b / 32;
    ValUpdate(s, k, s[k] + P2(b % 32));
    NonLinear.Dist(s[k], P2(b % 32), B(k));
    ShiftUnit(b);
  }

  /** One round: the remainder drops below d * 2^shift. */
  lemma RoundAlgebra(num: int, q: int, d: nat, shift: nat)
    ensures num - d * P2(shift) + (q + P2(shift)) * d == num + q * d
    ensures d * P2(shift + 1) == d * P2(shift) + d * P2(shift)
  {
    NonLinear.Dist(q, P2(shift), d);
    NonLinear.Dist(P2(shift), P2(shift), d);
  }

  lemma HalfShift(d: nat, shift: nat)
    requires shift > 0
    ensures d * P2(shift) / P2(1) == d * P2(shift - 1)
  {
    assert P2(1) == 2;
    assert d * P2(shift) == 2 * (d * P2(shift - 1)) by {
      NonLinear.MulAssoc(2, P2(shift - 1), d);
    }
  }

  /** With the divisor aligned, the dividend is below twice the divisor, and nothing is shifted out. */
  lemma Aligned(n: nat, d: nat, nbits: nat, dbits: nat)
    requires 0 < dbits <= nbits && P2(dbits - 1) <= d && n < P2(nbits)
    ensures n < d * P2(nbits - dbits + 1)
  {
    P2Add(dbits - 1, nbits - dbits + 1);
    NonLinear.MulMono(P2(nbits - dbits + 1), P2(dbits - 1), d);
  }

  lemma NothingLost(d: nat, nbits: nat, dbits: nat)
    requires dbits <= nbits <= 32 * WIDTH && d < P2(dbits)
    ensures d * P2(nbits - dbits) % B(WIDTH) == d * P2(nbits - dbits)
  {
    var shift := nbits - dbits;
    P2Add(dbits, shift);
    BelowPower(d, shift, dbits);
    BIsP2(WIDTH);
    P2Mono(nbits, 32 * WIDTH);
    Wrap(d * P2(shift), d * P2(shift), false);
  }

  lemma BelowPower(d: nat, shift: nat, dbits: nat)
    requires d < P2(dbits)
    ensures 0 <= d * P2(shift) < P2(dbits) * P2(shift)
  {
    NonLinear.MulMono(P2(shift), 0, d);
    NonLinear.MulMono(P2(shift), d + 1, P2(dbits));
    NonLinear.Dist(d, 1, P2(shift));
  }

  lemma QuotientZero(n: nat, d: nat, nbits: nat, dbits: nat)
    requires nbits < dbits && n < P2(nbits) && P2(dbits - 1) <= d
    ensures n / d == 0
  {
    P2Mono(nbits, dbits - 1);
    NonLinear.DivMod(n, d, 0, n);
  }

  // ---------- the class ----------

  class BaseUint {
    const pn: array<nat>

    ghost predicate Valid()
      reads pn
    {
      pn.Length == WIDTH && Limbs(pn[..])
    }

    ghost function Value(): nat
      reads pn
    {
      Val(pn[..])
    }

    // base_uint(uint64_t)
    constructor (b: nat)
      requires b < TWO64
      ensures Valid() && fresh(pn) && Value() == b
    {
      var low: nat, high: nat := b % BASE, b / BASE;
      pn := new nat[WIDTH](i => if i == 0 then low else if i == 1 then high else 0);
      new;
      ghost var s := pn[..];
      assert s == [low, high, 0, 0, 0, 0, 0, 0];
      SmallValue(s, low, high);
    }

    // base_uint(const base_uint&)
    constructor Copy(b: BaseUint)
      requires b.Valid()
      ensures Valid() && fresh(pn) && pn[..] == b.pn[..]
    {
      var s := b.pn[..];
      pn := new nat[WIDTH](i requires 0 <= i < |s| => s[i]);
      new;
      assert pn[..] == s;
    }

    // operator=
    method Assign(s: seq<nat>)
      requires pn.Length == WIDTH == |s|
      modifies pn
      ensures pn[..] == s
    {
      forall i | 0 <= i < WIDTH {
        pn[i] := s[i];
      }
    }

    // operator+=
    method Add(b: BaseUint)
      requires Valid() && b.Valid()
      modifies pn
      ensures Valid() && Value() == (old(Value()) + old(b.Value())) % B(WIDTH)
    {
      ghost var x, y := pn[..], b.pn[..];
      var carry := 0;
      for i := 0 to WIDTH
        invariant Limbs(pn[..]) && 0 <= carry < BASE
        invariant forall j | i <= j < WIDTH :: pn[j] == x[j] && b.pn[j] == y[j]
        invariant Val(pn[..i]) + carry * B(i) == Val(x[..i]) + Val(y[..i])
      {
        ghost var r := pn[..];
        var n: nat := carry + pn[i] + b.pn[i];
        assert n < TWO64;
        AddStep(r, x, y, i, carry, n);
        pn[i] := n % BASE;
        carry := n / BASE;
        var limb: nat := n % BASE;
        assert pn[..] == r[i := limb];
      }
      assert pn[..WIDTH] == pn[..] && x[..WIDTH] == x && y[..WIDTH] == y;
      CarryOut(pn[..], carry, Val(x) + Val(y));
    }

    // operator*=(uint32_t)
    method MulSmall(b32: nat)
      requires Valid() && b32 < BASE
      modifies pn
      ensures Valid() && Value() == b32 * old(Value()) % B(WIDTH)
    {
      ghost var x := pn[..];
      var carry: nat := 0;
      for i := 0 to WIDTH
        invariant Limbs(pn[..]) && carry < BASE
        invariant forall j | i <= j < WIDTH :: pn[j] == x[j]
        invariant Val(pn[..i]) + carry * B(i) == b32 * Val(x[..i])
      {
        ghost var r := pn[..];
        ProductFits(b32, pn[i], carry, 0);
        var n: nat := carry + b32 * pn[i];
        ScaleStep(r, x, i, b32, carry, n);
        pn[i] := n % BASE;
        carry := n / BASE;
        var limb: nat := n % BASE;
        assert pn[..] == r[i := limb];
      }
      assert pn[..WIDTH] == pn[..] && x[..WIDTH] == x;
      CarryOut(pn[..], carry, b32 * Val(x));
    }

    // operator++
    method Increment()
      requires Valid()
      modifies pn
      ensures Valid() && Value() == (old(Value()) + 1) % B(WIDTH)
    {
      ghost var x := pn[..];
      var i := 0;
      while i < WIDTH
        invariant 0 <= i <= WIDTH && Limbs(pn[..]) && Val(pn[..]) + B(i) == Val(x) + 1
      {
        ghost var r := pn[..];
        IncrementStep(r, i);
        var limb: nat := if pn[i] + 1 == BASE then 0 else pn[i] + 1;
        pn[i] := limb;
        assert pn[..] == r[i := limb];
        if limb != 0 {
          IncrementDone(pn[..], Val(x), false);
          return;
        }
        i := i + 1;
      }
      IncrementDone(pn[..], Val(x), true);
    }

    // operator~
    method Complement() returns (ret: BaseUint)
      requires Valid()
      ensures fresh(ret) && fresh(ret.pn) && ret.Valid() && ret.Value() == B(WIDTH) - 1 - Value()
    {
      ret := new BaseUint(0);
      ghost var x := pn[..];
      for i := 0 to WIDTH
        invariant Limbs(ret.pn[..]) && pn[..] == x
        invariant Val(ret.pn[..i]) + Val(x[..i]) == B(i) - 1
      {
        ghost var r := ret.pn[..];
        var limb: nat := BASE - 1 - pn[i];
        ret.pn[i] := limb;
        assert ret.pn[..] == r[i := limb];
        assert ret.pn[..i] == r[..i];
        ComplementStep(x, ret.pn[..], i);
        assert ret.pn[..][..i + 1] == ret.pn[..i + 1];
      }
      assert ret.pn[..WIDTH] == ret.pn[..] && x[..WIDTH] == x;
    }

    // operator-
    method Negate() returns (ret: BaseUint)
      requires Valid()
      ensures fresh(ret) && fresh(ret.pn) && ret.Valid() && ret.Value() == (B(WIDTH) - Value()) % B(WIDTH)
    {
      ret := Complement();
      ret.Increment();
    }

    // operator-=
    method Subtract(b: BaseUint)
      requires Valid() && b.Valid()
      modifies pn
      ensures Valid() && Value() == (old(Value()) - old(b.Value())) % B(WIDTH)
    {
      ghost var x, y := Value(), b.Value();
      ValBound(b.pn[..]);
      var n := b.Negate();
      ghost var z := n.Value();
      Add(n);
      DifferenceWraps(x, y, z);
    }

    // operator<<=
    method ShiftLeft(shift: nat)
      requires Valid()
      modifies pn
      ensures Valid() && Value() == old(Value()) * P2(shift) % B(WIDTH)
    {
      var r := ShiftedLeft(pn[..], shift);
      Assign(r);
    }

    // operator>>=
    method ShiftRight(shift: nat)
      requires Valid()
      modifies pn
      ensures Valid() && Value() == old(Value()) / P2(shift)
    {
      var r := ShiftedRight(pn[..], shift);
      Assign(r);
    }

    // operator*=
    method Multiply(b: BaseUint)
      requires Valid() && b.Valid()
      modifies pn
      ensures Valid() && Value() == old(Value()) * old(b.Value()) % B(WIDTH)
    {
      var r := Multiplied(pn[..], b.pn[..]);
      Assign(r);
    }

    method CompareTo(b: BaseUint) returns (c: int)
      requires Valid() && b.Valid()
      ensures c == (if Value() < b.Value() then -1 else if Value() > b.Value() then 1 else 0)
    {
      var i := WIDTH - 1;
      while i >= 0
        invariant -1 <= i < WIDTH && pn[i + 1..] == b.pn[i + 1..]
      {
        assert pn[..][i + 1..] == pn[i + 1..] && b.pn[..][i + 1..] == b.pn[i + 1..];
        if pn[i] < b.pn[i] {
          TopDecides(pn[..], b.pn[..], i);
          return -1;
        }
        if pn[i] > b.pn[i] {
          TopDecides(b.pn[..], pn[..], i);
          return 1;
        }
        i := i - 1;
      }
      assert pn[..] == pn[0..] && b.pn[..] == b.pn[0..];
      return 0;
    }

    method EqualTo(b: nat) returns (eq: bool)
      requires Valid() && b < TWO64
      ensures eq <==> Value() == b
    {
      ghost var s := pn[..];
      LowLimbs(s);
      var i := WIDTH - 1;
      while i >= 2
        invariant 1 <= i < WIDTH && forall j | i < j < WIDTH :: pn[j] == 0
      {
        if pn[i] != 0 {
          HighLimb(s, i);
          return false;
        }
        i := i - 1;
      }
      ValZero(s[2..]);
      if pn[1] != b / BASE {
        return false;
      }
      if pn[0] != b % BASE {
        return false;
      }
      return true;
    }

    method GetLow64() returns (low: nat)
      requires Valid()
      ensures low == Value() % TWO64
    {
      ghost var s := pn[..];
      LowLimbs(s);
      low := pn[0] + BASE * pn[1];
      assert Value() == TWO64 * Val(s[2..]) + low;
      NonLinear.DivMod(Value(), TWO64, Val(s[2..]), low);
    }

    // the inner loop: position of the highest bit of limb pos
    method TopBit(pos: nat) returns (n: nat)
      requires Valid() && pos < WIDTH && pn[pos] != 0
      ensures n < 32 && P2(n) <= pn[pos] < P2(n + 1)
    {
      P2Limb();
      n := 31;
      while n > 0
        invariant n <= 31 && pn[pos] < P2(n + 1)
      {
        BitDecides(pn[pos], n);
        if Shr(pn[pos], n) % 2 == 1 {
          return;
        }
        n := n - 1;
      }
    }

    method Bits() returns (bits: nat)
      requires Valid()
      ensures bits <= 32 * WIDTH
      ensures if bits == 0 then Value() == 0 else P2(bits - 1) <= Value() < P2(bits)
    {
      var pos := WIDTH - 1;
      while pos >= 0
        invariant -1 <= pos < WIDTH && forall j | pos < j < WIDTH :: pn[j] == 0
      {
        if pn[pos] != 0 {
          var n := TopBit(pos);
          TopBits(pn[..], pos, n);
          return 32 * pos + n + 1;
        }
        pos := pos - 1;
      }
      ValZero(pn[..]);
      return 0;
    }

    // pn[b / 32] |= 1 << (b & 31)
    method SetBit(b: nat)
      requires Valid() && b < 32 * WIDTH && LowClear(pn[..], b)
      modifies pn
      ensures Valid() && Value() == old(Value()) + P2(b) && LowClear(pn[..], b - 1)
    {
      ghost var s := pn[..];
      var k := b / 32;
      LimbBit(s[k], b % 32);
      BitValue(s, b);
      var limb := Or(pn[k], P2(b % 32));
      ClearNext(s, b, limb);
      pn[k] := limb;
      assert pn[..] == s[k := limb];
    }

    // one round of the division loop
    method DivideRound(num: BaseUint, div: BaseUint, shift: nat, ghost d: nat)
      requires Valid() && num.Valid() && div.Valid()
      requires pn != num.pn && pn != div.pn && num.pn != div.pn
      requires shift < 32 * WIDTH && LowClear(pn[..], shift)
      requires div.Value() == d * P2(shift) && num.Value() < d * P2(shift + 1)
      modifies pn, num.pn, div.pn
      ensures Valid() && num.Valid() && div.Valid() && LowClear(pn[..], shift - 1)
      ensures num.Value() + Value() * d == old(num.Value() + Value() * d)
      ensures num.Value() < d * P2(shift)
      ensures shift > 0 ==> div.Value() == d * P2(shift - 1)
    {
      RoundAlgebra(num.Value(), Value(), d, shift);
      var c := num.CompareTo(div);
      if c >= 0 {
        ValBound(num.pn[..]);
        Wrap(num.Value() - div.Value(), num.Value() - div.Value(), false);
        num.Subtract(div);
        SetBit(shift);
      } else {
        ghost var s := pn[..];
        LimbBit(s[shift / 32], shift % 32);
        ClearNext(s, shift, s[shift / 32]);
        assert s[shift / 32 := s[shift / 32]] == s;
      }
      if shift > 0 { HalfShift(d, shift); }
      div.ShiftRight(1);
    }

    // the division loop
    method DivideBits(num: BaseUint, div: BaseUint, from: nat, ghost d: nat)
      requires Valid() && num.Valid() && div.Valid()
      requires pn != num.pn && pn != div.pn && num.pn != div.pn
      requires from < 32 * WIDTH && forall j | 0 <= j < WIDTH :: pn[j] == 0
      requires div.Value() == d * P2(from) && num.Value() < d * P2(from + 1)
      modifies pn, num.pn, div.pn
      ensures Valid() && d > 0 && Value() == old(num.Value()) / d
    {
      ghost var n := num.Value();
      ValZero(pn[..]);
      ZeroClear(pn[..], from);
      var shift: int := from;
      while shift >= 0
        invariant -1 <= shift < 32 * WIDTH && Valid() && num.Valid() && div.Valid()
        invariant LowClear(pn[..], shift)
        invariant num.Value() + Value() * d == n
        invariant num.Value() < d * P2(shift + 1)
        invariant shift >= 0 ==> div.Value() == d * P2(shift)
      {
        DivideRound(num, div, shift, d);
        shift := shift - 1;
      }
      NonLinear.DivMod(n, d, Value(), num.Value());
    }

    // the part of operator/= after the copies are made
    method DivideCopies(num: BaseUint, div: BaseUint) returns (ok: bool)
      requires Valid() && num.Valid() && div.Valid() && forall j | 0 <= j < WIDTH :: pn[j] == 0
      requires pn != num.pn && pn != div.pn && num.pn != div.pn
      modifies pn, num.pn, div.pn
      ensures Valid() && (ok <==> old(div.Value()) != 0)
      ensures Value() == if ok then old(num.Value()) / old(div.Value()) else 0
    {
      ghost var n, d := num.Value(), div.Value();
      ValZero(pn[..]);
      var numBits := num.Bits();
      var divBits := div.Bits();
      if divBits == 0 {
        return false;
      }
      if divBits > numBits {
        assert n < P2(numBits);
        QuotientZero(n, d, numBits, divBits);
        return true;
      }
      var shift := numBits - divBits;
      Aligned(n, d, numBits, divBits);
      NothingLost(d, numBits, divBits);
      div.ShiftLeft(shift);
      DivideBits(num, div, shift, d);
      return true;
    }

    // operator/=, false where the source throws
    method Divide(b: BaseUint) returns (ok: bool)
      requires Valid() && b.Valid()
      modifies pn
      ensures Valid() && (ok <==> old(b.Value()) != 0)
      ensures Value() == if ok then old(Value()) / old(b.Value()) else 0
    {
      var div := new BaseUint.Copy(b);
      var num := new BaseUint.Copy(this);
      Assign([0, 0, 0, 0, 0, 0, 0, 0]);
      ok := DivideCopies(num, div);
    }
  }

  lemma LowLimbs(s: seq<nat>)
    requires |s| >= 2
    ensures Val(s) == s[0] + BASE * s[1] + TWO64 * Val(s[2..])
  {
    ValSplit(s, 2);
    ValStep(s, 1);
    ValStep(s, 0);
    assert B(2) == TWO64 && B(1) == BASE && B(0) == 1;
    assert s[..0] == [];
  }

  lemma HighLimb(s: seq<nat>, i: nat)
    requires 2 <= i < |s| && s[i] != 0
    ensures Val(s) >= TWO64
  {
    PrefixAbove(s, i, 1);
    PrefixBound(s, i + 1);
    BMono(2, i);
    assert B(2) == TWO64;
  }

  lemma PrefixBound(s: seq<nat>, m: nat)
    requires m <= |s|
    ensures Val(s[..m]) <= Val(s)
  {
    ValSplit(s, m);
    NonLinear.MulMono(B(m), 0, Val(s[m..]));
  }

  lemma SmallValue(s: seq<nat>, low: nat, high: nat)
    requires s == [low, high, 0, 0, 0, 0, 0, 0] && low < BASE && high < BASE
    ensures Val(s) == low + BASE * high && Limbs(s)
  {
    LowLimbs(s);
    ValZero(s[2..]);
  }
}
