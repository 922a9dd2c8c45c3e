/** The checksum of Bech32 as a remainder: polynomials over the field with 32 elements (src/bech32.cpp,
    the remarks at PolyMod). */
module Bech32Field {
  import opened Powers
  import NonLinear
  import opened Bech32

  // ---------- the field ----------

  /** Elements are polynomials in a over the bits, lowest coefficient first, modulo a^5 + a^3 + 1. */
  ghost predicate IsElement(x: Bits) {
    |x| == 5
  }

  /** Multiplication by a: where a^5 arises it is a^3 + 1. */
  function TimesA(x: Bits): (r: Bits)
    requires |x| == 5
    ensures |r| == 5
  {
    [x[4], x[0], x[1], x[2] != x[4], x[3]]
  }

  function TimesAs(x: Bits, n: nat): (r: Bits)
    requires |x| == 5
    ensures |r| == 5
  {
    if n == 0 then x else TimesA(TimesAs(x, n - 1))
  }

  /** The sum of those bits kn for which bit n of x is set. */
  function MixBit(x: Bits, k0: bool, k1: bool, k2: bool, k3: bool, k4: bool): bool
    requires |x| == 5
  {
    (x[0] && k0) != ((x[1] && k1) != ((x[2] && k2) != ((x[3] && k3) != (x[4] && k4))))
  }

  /** The sum of those zn for which bit n of x is set. */
  function Mix(x: Bits, z0: Bits, z1: Bits, z2: Bits, z3: Bits, z4: Bits): (r: Bits)
    requires |x| == |z0| == |z1| == |z2| == |z3| == |z4| == 5
    ensures |r| == 5
  {
    [MixBit(x, z0[0], z1[0], z2[0], z3[0], z4[0]), MixBit(x, z0[1], z1[1], z2[1], z3[1], z4[1]), MixBit(x, z0[2], z1[2], z2[2], z3[2], z4[2]),
     MixBit(x, z0[3], z1[3], z2[3], z3[3], z4[3]), MixBit(x, z0[4], z1[4], z2[4], z3[4], z4[4])]
  }

  lemma MixAt(x: Bits, z0: Bits, z1: Bits, z2: Bits, z3: Bits, z4: Bits, b: nat)
    requires |x| == |z0| == |z1| == |z2| == |z3| == |z4| == 5 && b < 5
    ensures Mix(x, z0, z1, z2, z3, z4)[b] == MixBit(x, z0[b], z1[b], z2[b], z3[b], z4[b])
  {
  }

  lemma MixBitLinear(x: Bits, y: Bits, k0: bool, k1: bool, k2: bool, k3: bool, k4: bool)
    requires |x| == |y| == 5
    ensures MixBit(Xor(x, y), k0, k1, k2, k3, k4) == (MixBit(x, k0, k1, k2, k3, k4) != MixBit(y, k0, k1, k2, k3, k4))
  {
    FoldBits(x[0], x[1], x[2], x[3], x[4], y[0], y[1], y[2], y[3], y[4], k0, k1, k2, k3, k4);
  }

  lemma MixLinear(x: Bits, y: Bits, z0: Bits, z1: Bits, z2: Bits, z3: Bits, z4: Bits)
    requires |x| == |y| == |z0| == |z1| == |z2| == |z3| == |z4| == 5
    ensures Mix(Xor(x, y), z0, z1, z2, z3, z4) == Xor(Mix(x, z0, z1, z2, z3, z4), Mix(y, z0, z1, z2, z3, z4))
  {
    var r, s := Mix(Xor(x, y), z0, z1, z2, z3, z4), Xor(Mix(x, z0, z1, z2, z3, z4), Mix(y, z0, z1, z2, z3, z4));
    forall b | 0 <= b < 5 ensures r[b] == s[b] {
      MixLinearAt(x, y, z0, z1, z2, z3, z4, b);
    }
  }

  lemma MixLinearAt(x: Bits, y: Bits, z0: Bits, z1: Bits, z2: Bits, z3: Bits, z4: Bits, b: nat)
    requires |x| == |y| == |z0| == |z1| == |z2| == |z3| == |z4| == 5 && b < 5
    ensures Mix(Xor(x, y), z0, z1, z2, z3, z4)[b] == (Mix(x, z0, z1, z2, z3, z4)[b] != Mix(y, z0, z1, z2, z3, z4)[b])
  {
    MixAt(Xor(x, y), z0, z1, z2, z3, z4, b);
    MixAt(x, z0, z1, z2, z3, z4, b);
    MixAt(y, z0, z1, z2, z3, z4, b);
    MixBitLinear(x, y, z0[b], z1[b], z2[b], z3[b], z4[b]);
  }

  /** x times y: the sum of y * a^n over the bits n of x. */
  function Times(x: Bits, y: Bits): (r: Bits)
    requires |x| == 5 && |y| == 5
    ensures |r| == 5
  {
    Mix(x, TimesAs(y, 0), TimesAs(y, 1), TimesAs(y, 2), TimesAs(y, 3), TimesAs(y, 4))
  }

  /** y, a * y, ..., a^4 * y written out. */
  lemma Multiples(y: Bits)
    requires |y| == 5
    ensures TimesAs(y, 0) == y
    ensures TimesAs(y, 1) == [y[4], y[0], y[1], y[2] != y[4], y[3]]
    ensures TimesAs(y, 2) == [y[3], y[4], y[0], y[1] != y[3], y[2] != y[4]]
    ensures TimesAs(y, 3) == [y[2] != y[4], y[3], y[4], y[0] != (y[2] != y[4]), y[1] != y[3]]
    ensures TimesAs(y, 4) == [y[1] != y[3], y[2] != y[4], y[3], y[4] != (y[1] != y[3]), y[0] != (y[2] != y[4])]
  {
    assert TimesAs(y, 1) == TimesA(TimesAs(y, 0));
    assert TimesAs(y, 2) == TimesA(TimesAs(y, 1));
    assert TimesAs(y, 3) == TimesA(TimesAs(y, 2));
    assert TimesAs(y, 4) == TimesA(TimesAs(y, 3));
  }

  lemma CommuteBit0(x0: bool, x1: bool, x2: bool, x3: bool, x4: bool, y0: bool, y1: bool, y2: bool, y3: bool, y4: bool)
    ensures ((x0 && y0) != ((x1 && y4) != ((x2 && y3) != ((x3 && (y2 != y4)) != (x4 && (y1 != y3))))))
         == ((y0 && x0) != ((y1 && x4) != ((y2 && x3) != ((y3 && (x2 != x4)) != (y4 && (x1 != x3))))))
  {
  }

  lemma CommuteBit1(x0: bool, x1: bool, x2: bool, x3: bool, x4: bool, y0: bool, y1: bool, y2: bool, y3: bool, y4: bool)
    ensures ((x0 && y1) != ((x1 && y0) != ((x2 && y4) != ((x3 && y3) != (x4 && (y2 != y4))))))
         == ((y0 && x1) != ((y1 && x0) != ((y2 && x4) != ((y3 && x3) != (y4 && (x2 != x4))))))
  {
  }

  lemma CommuteBit2(x0: bool, x1: bool, x2: bool, x3: bool, x4: bool, y0: bool, y1: bool, y2: bool, y3: bool, y4: bool)
    ensures ((x0 && y2) != ((x1 && y1) != ((x2 && y0) != ((x3 && y4) != (x4 && y3)))))
         == ((y0 && x2) != ((y1 && x1) != ((y2 && x0) != ((y3 && x4) != (y4 && x3)))))
  {
  }

  lemma CommuteBit3(x0: bool, x1: bool, x2: bool, x3: bool, x4: bool, y0: bool, y1: bool, y2: bool, y3: bool, y4: bool)
    ensures ((x0 && y3) != ((x1 && (y2 != y4)) != ((x2 && (y1 != y3)) != ((x3 && (y0 != (y2 != y4))) != (x4 && (y4 != (y1 != y3)))))))
         == ((y0 && x3) != ((y1 && (x2 != x4)) != ((y2 && (x1 != x3)) != ((y3 && (x0 != (x2 != x4))) != (y4 && (x4 != (x1 != x3)))))))
  {
  }

  lemma CommuteBit4(x0: bool, x1: bool, x2: bool, x3: bool, x4: bool, y0: bool, y1: bool, y2: bool, y3: bool, y4: bool)
    ensures ((x0 && y4) != ((x1 && y3) != ((x2 && (y2 != y4)) != ((x3 && (y1 != y3)) != (x4 && (y0 != (y2 != y4)))))))
         == ((y0 && x4) != ((y1 && x3) != ((y2 && (x2 != x4)) != ((y3 && (x1 != x3)) != (y4 && (x0 != (x2 != x4)))))))
  {
  }

  lemma CommutesAt0(x: Bits, y: Bits)
    requires |x| == 5 && |y| == 5
    ensures Times(x, y)[0] == Times(y, x)[0]
  {
    Multiples(x);
    Multiples(y);
    CommuteBit0(x[0], x[1], x[2], x[3], x[4], y[0], y[1], y[2], y[3], y[4]);
  }

  lemma CommutesAt1(x: Bits, y: Bits)
    requires |x| == 5 && |y| == 5
    ensures Times(x, y)[1] == Times(y, x)[1]
  {
    Multiples(x);
    Multiples(y);
    CommuteBit1(x[0], x[1], x[2], x[3], x[4], y[0], y[1], y[2], y[3], y[4]);
  }

  lemma CommutesAt2(x: Bits, y: Bits)
    requires |x| == 5 && |y| == 5
    ensures Times(x, y)[2] == Times(y, x)[2]
  {
    Multiples(x);
    Multiples(y);
    CommuteBit2(x[0], x[1], x[2], x[3], x[4], y[0], y[1], y[2], y[3], y[4]);
  }

  lemma CommutesAt3(x: Bits, y: Bits)
    requires |x| == 5 && |y| == 5
    ensures Times(x, y)[3] == Times(y, x)[3]
  {
    Multiples(x);
    Multiples(y);
    CommuteBit3(x[0], x[1], x[2], x[3], x[4], y[0], y[1], y[2], y[3], y[4]);
  }

  lemma CommutesAt4(x: Bits, y: Bits)
    requires |x| == 5 && |y| == 5
    ensures Times(x, y)[4] == Times(y, x)[4]
  {
    Multiples(x);
    Multiples(y);
    CommuteBit4(x[0], x[1], x[2], x[3], x[4], y[0], y[1], y[2], y[3], y[4]);
  }

  lemma TimesCommutes(x: Bits, y: Bits)
    requires |x| == 5 && |y| == 5
    ensures Times(x, y) == Times(y, x)
  {
    CommutesAt0(x, y);
    CommutesAt1(x, y);
    CommutesAt2(x, y);
    CommutesAt3(x, y);
    CommutesAt4(x, y);
    SameFive(Times(x, y), Times(y, x));
  }

  lemma TimesDistributes(x: Bits, y: Bits, z: Bits)
    requires |x| == 5 && |y| == 5 && |z| == 5
    ensures Times(Xor(x, y), z) == Xor(Times(x, z), Times(y, z))
  {
    MixLinear(x, y, TimesAs(z, 0), TimesAs(z, 1), TimesAs(z, 2), TimesAs(z, 3), TimesAs(z, 4));
  }

  lemma TimesOne(x: Bits)
    requires |x| == 5
    ensures Times(Five(1), x) == x && Times(Zeros(5), x) == Zeros(5)
  {
    Multiples(x);
  }

  lemma {:induction false} TimesAFirst(x: Bits, n: nat)
    requires |x| == 5
    ensures TimesAs(TimesA(x), n) == TimesA(TimesAs(x, n))
    decreases n
  {
    if n > 0 { TimesAFirst(x, n - 1); }
  }

  lemma SameFive(r: Bits, s: Bits)
    requires |r| == |s| == 5 && r[0] == s[0] && r[1] == s[1] && r[2] == s[2] && r[3] == s[3] && r[4] == s[4]
    ensures r == s
  {
  }

  ghost function Scaled(b: bool, x: Bits): (r: Bits)
    requires |x| == 5
    ensures |r| == 5 && forall i | 0 <= i < 5 :: r[i] == (b && x[i])
  {
    if b then x else Zeros(5)
  }

  ghost function SumOf(a: Bits, b: Bits, c: Bits, d: Bits, e: Bits): (r: Bits)
    requires |a| == |b| == |c| == |d| == |e| == 5
    ensures |r| == 5
  {
    Xor(a, Xor(b, Xor(c, Xor(d, e))))
  }

  lemma MixIsSum(x: Bits, z0: Bits, z1: Bits, z2: Bits, z3: Bits, z4: Bits)
    requires |x| == |z0| == |z1| == |z2| == |z3| == |z4| == 5
    ensures Mix(x, z0, z1, z2, z3, z4) == SumOf(Scaled(x[0], z0), Scaled(x[1], z1), Scaled(x[2], z2), Scaled(x[3], z3), Scaled(x[4], z4))
  {
    var r, s := Mix(x, z0, z1, z2, z3, z4), SumOf(Scaled(x[0], z0), Scaled(x[1], z1), Scaled(x[2], z2), Scaled(x[3], z3), Scaled(x[4], z4));
    forall b | 0 <= b < 5 ensures r[b] == s[b] {
      MixAt(x, z0, z1, z2, z3, z4, b);
      SumAt(Scaled(x[0], z0), Scaled(x[1], z1), Scaled(x[2], z2), Scaled(x[3], z3), Scaled(x[4], z4), b);
    }
  }

  lemma SumAt(a: Bits, b: Bits, c: Bits, d: Bits, e: Bits, i: nat)
    requires |a| == |b| == |c| == |d| == |e| == 5 && i < 5
    ensures SumOf(a, b, c, d, e)[i] == (a[i] != (b[i] != (c[i] != (d[i] != e[i]))))
  {
  }

  lemma TimesAXor(a: Bits, b: Bits)
    requires |a| == |b| == 5
    ensures TimesA(Xor(a, b)) == Xor(TimesA(a), TimesA(b))
  {
    SameFive(TimesA(Xor(a, b)), Xor(TimesA(a), TimesA(b)));
  }

  lemma TimesAScaled(b: bool, x: Bits)
    requires |x| == 5
    ensures TimesA(Scaled(b, x)) == Scaled(b, TimesA(x))
  {
    SameFive(TimesA(Scaled(b, x)), Scaled(b, TimesA(x)));
  }

  lemma TimesASum(a: Bits, b: Bits, c: Bits, d: Bits, e: Bits)
    requires |a| == |b| == |c| == |d| == |e| == 5
    ensures TimesA(SumOf(a, b, c, d, e)) == SumOf(TimesA(a), TimesA(b), TimesA(c), TimesA(d), TimesA(e))
  {
    TimesAXor(d, e);
    TimesAXor(c, Xor(d, e));
    TimesAXor(b, Xor(c, Xor(d, e)));
    TimesAXor(a, Xor(b, Xor(c, Xor(d, e))));
  }

  lemma MixTimesA(y: Bits, z0: Bits, z1: Bits, z2: Bits, z3: Bits, z4: Bits)
    requires |y| == |z0| == |z1| == |z2| == |z3| == |z4| == 5
    ensures Mix(y, TimesA(z0), TimesA(z1), TimesA(z2), TimesA(z3), TimesA(z4)) == TimesA(Mix(y, z0, z1, z2, z3, z4))
  {
    MixIsSum(y, z0, z1, z2, z3, z4);
    MixIsSum(y, TimesA(z0), TimesA(z1), TimesA(z2), TimesA(z3), TimesA(z4));
    TimesASum(Scaled(y[0], z0), Scaled(y[1], z1), Scaled(y[2], z2), Scaled(y[3], z3), Scaled(y[4], z4));
    TimesAScaled(y[0], z0);
    TimesAScaled(y[1], z1);
    TimesAScaled(y[2], z2);
    TimesAScaled(y[3], z3);
    TimesAScaled(y[4], z4);
  }

  /** a can be moved out of the second factor. */
  lemma TimesAMoves(y: Bits, x: Bits)
    requires |x| == 5 && |y| == 5
    ensures Times(y, TimesA(x)) == TimesA(Times(y, x))
  {
    TimesAFirst(x, 0);
    TimesAFirst(x, 1);
    TimesAFirst(x, 2);
    TimesAFirst(x, 3);
    TimesAFirst(x, 4);
    MixTimesA(y, TimesAs(x, 0), TimesAs(x, 1), TimesAs(x, 2), TimesAs(x, 3), TimesAs(x, 4));
  }

  lemma {:induction false} TimesAsMoves(y: Bits, x: Bits, n: nat)
    requires |x| == 5 && |y| == 5
    ensures Times(TimesAs(x, n), y) == TimesAs(Times(x, y), n)
    decreases n
  {
    if n > 0 {
      TimesAsMoves(y, x, n - 1);
      TimesCommutes(TimesAs(x, n), y);
      TimesAMoves(y, TimesAs(x, n - 1));
      TimesCommutes(TimesAs(x, n - 1), y);
    }
  }

  lemma TimesIsSum(x: Bits, y: Bits)
    requires |x| == 5 && |y| == 5
    ensures Times(x, y) == SumOf(Scaled(x[0], TimesAs(y, 0)), Scaled(x[1], TimesAs(y, 1)), Scaled(x[2], TimesAs(y, 2)),
                                 Scaled(x[3], TimesAs(y, 3)), Scaled(x[4], TimesAs(y, 4)))
  {
    MixIsSum(x, TimesAs(y, 0), TimesAs(y, 1), TimesAs(y, 2), TimesAs(y, 3), TimesAs(y, 4));
  }

  lemma SumTimes(a: Bits, b: Bits, c: Bits, d: Bits, e: Bits, z: Bits)
    requires |a| == |b| == |c| == |d| == |e| == |z| == 5
    ensures Times(SumOf(a, b, c, d, e), z) == SumOf(Times(a, z), Times(b, z), Times(c, z), Times(d, z), Times(e, z))
  {
    TimesDistributes(a, Xor(b, Xor(c, Xor(d, e))), z);
    TimesDistributes(b, Xor(c, Xor(d, e)), z);
    TimesDistributes(c, Xor(d, e), z);
    TimesDistributes(d, e, z);
  }

  lemma ScaledTimes(b: bool, x: Bits, y: Bits, z: Bits, n: nat)
    requires |x| == |y| == |z| == 5 && x == TimesAs(y, n)
    ensures Times(Scaled(b, x), z) == Scaled(b, TimesAs(Times(y, z), n))
  {
    TimesOne(z);
    TimesAsMoves(z, y, n);
  }

  lemma TimesAssociates(x: Bits, y: Bits, z: Bits)
    requires |x| == |y| == |z| == 5
    ensures Times(Times(x, y), z) == Times(x, Times(y, z))
  {
    TimesIsSum(x, y);
    TimesIsSum(x, Times(y, z));
    SumTimes(Scaled(x[0], TimesAs(y, 0)), Scaled(x[1], TimesAs(y, 1)), Scaled(x[2], TimesAs(y, 2)),
             Scaled(x[3], TimesAs(y, 3)), Scaled(x[4], TimesAs(y, 4)), z);
    ScaledTimes(x[0], TimesAs(y, 0), y, z, 0);
    ScaledTimes(x[1], TimesAs(y, 1), y, z, 1);
    ScaledTimes(x[2], TimesAs(y, 2), y, z, 2);
    ScaledTimes(x[3], TimesAs(y, 3), y, z, 3);
    ScaledTimes(x[4], TimesAs(y, 4), y, z, 4);
  }

  lemma NoZeroBits(x0: bool, x1: bool, x2: bool, x3: bool, x4: bool, y0: bool, y1: bool, y2: bool, y3: bool, y4: bool)
    requires !((x0 && y0) != ((x1 && y4) != ((x2 && y3) != ((x3 && (y2 != y4)) != (x4 && (y1 != y3))))))
    requires !((x0 && y1) != ((x1 && y0) != ((x2 && y4) != ((x3 && y3) != (x4 && (y2 != y4))))))
    requires !((x0 && y2) != ((x1 && y1) != ((x2 && y0) != ((x3 && y4) != (x4 && y3)))))
    requires !((x0 && y3) != ((x1 && (y2 != y4)) != ((x2 && (y1 != y3)) != ((x3 && (y0 != (y2 != y4))) != (x4 && (y4 != (y1 != y3)))))))
    requires !((x0 && y4) != ((x1 && y3) != ((x2 && (y2 != y4)) != ((x3 && (y1 != y3)) != (x4 && (y0 != (y2 != y4)))))))
    ensures (!x0 && !x1 && !x2 && !x3 && !x4) || (!y0 && !y1 && !y2 && !y3 && !y4)
  {
  }

  /** A product is zero only if a factor is: this is a field. */
  lemma NoZeroDivisors(x: Bits, y: Bits)
    requires |x| == 5 && |y| == 5 && Times(x, y) == Zeros(5)
    ensures x == Zeros(5) || y == Zeros(5)
  {
    Multiples(y);
    var r := Times(x, y);
    assert !r[0] && !r[1] && !r[2] && !r[3] && !r[4];
    NoZeroBits(x[0], x[1], x[2], x[3], x[4], y[0], y[1], y[2], y[3], y[4]);
  }

  // ---------- the generator ----------

  /** x^6 + 29 x^5 + 22 x^4 + 20 x^3 + 21 x^2 + 29 x + 18, highest coefficient first. */
  function G(j: nat): (g: Bits)
    requires j <= 6
    ensures |g| == 5
  {
    Five(if j == 0 then 1 else if j == 1 then 29 else if j == 2 then 22 else if j == 3 then 20
         else if j == 4 then 21 else if j == 5 then 29 else 18)
  }

  /** Bit 5 * j + b of a word is bit b of its group j. */
  lemma WordAt(n: nat, j: nat, b: nat)
    requires j < 6 && b < 5
    ensures Word(n)[5 * j + b] == Five(n / P2(5 * j))[b]
  {
    P2Add(5 * j, b);
    NonLinear.DivDiv(n, P2(5 * j), P2(b));
    LowPowers();
    var m := n / P2(5 * j);
    assert n / P2(5 * j + b) == m / P2(b);
  }

  lemma FivePowers()
    ensures P2(0) == 1 && P2(5) == 32 && P2(10) == 1024 && P2(15) == 32768 && P2(20) == 1048576 && P2(25) == 33554432
  {
    assert P2(5) == 32;
    P2Add(5, 5);
    P2Add(10, 5);
    P2Add(15, 5);
    P2Add(20, 5);
  }

  lemma LowBit(n: nat, q: int, v: nat)
    requires n == 32 * q + v
    ensures n % 2 == v % 2 && n / 2 % 2 == v / 2 % 2
  {
  }

  lemma ThirdBit(n: nat, q: int, v: nat)
    requires n == 32 * q + v
    ensures n / 4 % 2 == v / 4 % 2
  {
    assert n / 4 == 8 * q + v / 4;
  }

  lemma FourthBit(n: nat, q: int, v: nat)
    requires n == 32 * q + v
    ensures n / 8 % 2 == v / 8 % 2
  {
    assert n / 8 == 4 * q + v / 8;
  }

  lemma HighBit(n: nat, q: int, v: nat)
    requires n == 32 * q + v
    ensures n / 16 % 2 == v / 16 % 2
  {
  }

  lemma LowGroup(n: nat, v: nat)
    requires n % 32 == v
    ensures Five(n) == Five(v)
  {
    LowBit(n, n / 32, v);
    ThirdBit(n, n / 32, v);
    FourthBit(n, n / 32, v);
    HighBit(n, n / 32, v);
  }

  lemma Multiples18()
    ensures TimesAs(Five(18), 1) == Five(13) && TimesAs(Five(18), 2) == Five(26)
    ensures TimesAs(Five(18), 3) == Five(29) && TimesAs(Five(18), 4) == Five(19)
  {
    Multiples(Five(18));
  }

  lemma Multiples29()
    ensures TimesAs(Five(29), 1) == Five(19) && TimesAs(Five(29), 2) == Five(15)
    ensures TimesAs(Five(29), 3) == Five(30) && TimesAs(Five(29), 4) == Five(21)
  {
    Multiples(Five(29));
  }

  lemma Multiples21()
    ensures TimesAs(Five(21), 1) == Five(3) && TimesAs(Five(21), 2) == Five(6)
    ensures TimesAs(Five(21), 3) == Five(12) && TimesAs(Five(21), 4) == Five(24)
  {
    Multiples(Five(21));
  }

  lemma Multiples20()
    ensures TimesAs(Five(20), 1) == Five(1) && TimesAs(Five(20), 2) == Five(2)
    ensures TimesAs(Five(20), 3) == Five(4) && TimesAs(Five(20), 4) == Five(8)
  {
    Multiples(Five(20));
  }

  lemma Multiples22()
    ensures TimesAs(Five(22), 1) == Five(5) && TimesAs(Five(22), 2) == Five(10)
    ensures TimesAs(Five(22), 3) == Five(20) && TimesAs(Five(22), 4) == Five(1)
  {
    Multiples(Five(22));
  }

  lemma Words0(j: nat)
    requires j < 6
    ensures Five(0x3b6a57b2 / P2(5 * j)) == TimesAs(G(6 - j), 0)
  {
    FivePowers();
    if j == 0 {
      LowGroup(0x3b6a57b2 / 1, 18);
    } else if j == 1 {
      LowGroup(0x3b6a57b2 / 32, 29);
    } else if j == 2 {
      LowGroup(0x3b6a57b2 / 1024, 21);
    } else if j == 3 {
      LowGroup(0x3b6a57b2 / 32768, 20);
    } else if j == 4 {
      LowGroup(0x3b6a57b2 / 1048576, 22);
    } else if j == 5 {
      LowGroup(0x3b6a57b2 / 33554432, 29);
    }
  }

  lemma Words1(j: nat)
    requires j < 6
    ensures Five(0x26508e6d / P2(5 * j)) == TimesAs(G(6 - j), 1)
  {
    FivePowers();
    if j == 0 {
      LowGroup(0x26508e6d / 1, 13);
      Multiples18();
    } else if j == 1 {
      LowGroup(0x26508e6d / 32, 19);
      Multiples29();
    } else if j == 2 {
      LowGroup(0x26508e6d / 1024, 3);
      Multiples21();
    } else if j == 3 {
      LowGroup(0x26508e6d / 32768, 1);
      Multiples20();
    } else if j == 4 {
      LowGroup(0x26508e6d / 1048576, 5);
      Multiples22();
    } else if j == 5 {
      LowGroup(0x26508e6d / 33554432, 19);
      Multiples29();
    }
  }

  lemma Words2(j: nat)
    requires j < 6
    ensures Five(0x1ea119fa / P2(5 * j)) == TimesAs(G(6 - j), 2)
  {
    FivePowers();
    if j == 0 {
      LowGroup(0x1ea119fa / 1, 26);
      Multiples18();
    } else if j == 1 {
      LowGroup(0x1ea119fa / 32, 15);
      Multiples29();
    } else if j == 2 {
      LowGroup(0x1ea119fa / 1024, 6);
      Multiples21();
    } else if j == 3 {
      LowGroup(0x1ea119fa / 32768, 2);
      Multiples20();
    } else if j == 4 {
      LowGroup(0x1ea119fa / 1048576, 10);
      Multiples22();
    } else if j == 5 {
      LowGroup(0x1ea119fa / 33554432, 15);
      Multiples29();
    }
  }

  lemma Words3(j: nat)
    requires j < 6
    ensures Five(0x3d4233dd / P2(5 * j)) == TimesAs(G(6 - j), 3)
  {
    FivePowers();
    if j == 0 {
      LowGroup(0x3d4233dd / 1, 29);
      Multiples18();
    } else if j == 1 {
      LowGroup(0x3d4233dd / 32, 30);
      Multiples29();
    } else if j == 2 {
      LowGroup(0x3d4233dd / 1024, 12);
      Multiples21();
    } else if j == 3 {
      LowGroup(0x3d4233dd / 32768, 4);
      Multiples20();
    } else if j == 4 {
      LowGroup(0x3d4233dd / 1048576, 20);
      Multiples22();
    } else if j == 5 {
      LowGroup(0x3d4233dd / 33554432, 30);
      Multiples29();
    }
  }

  lemma Words4(j: nat)
    requires j < 6
    ensures Five(0x2a1462b3 / P2(5 * j)) == TimesAs(G(6 - j), 4)
  {
    FivePowers();
    if j == 0 {
      LowGroup(0x2a1462b3 / 1, 19);
      Multiples18();
    } else if j == 1 {
      LowGroup(0x2a1462b3 / 32, 21);
      Multiples29();
    } else if j == 2 {
      LowGroup(0x2a1462b3 / 1024, 24);
      Multiples21();
    } else if j == 3 {
      LowGroup(0x2a1462b3 / 32768, 8);
      Multiples20();
    } else if j == 4 {
      LowGroup(0x2a1462b3 / 1048576, 1);
      Multiples22();
    } else if j == 5 {
      LowGroup(0x2a1462b3 / 33554432, 21);
      Multiples29();
    }
  }

  /** The five words are the multiples of the generator, without its leading term, by 1, a, ..., a^4. */
  lemma WordsAreMultiples(t: nat, j: nat, b: nat)
    requires t < 5 && j < 6 && b < 5
    ensures Generator(t)[5 * j + b] == TimesAs(G(6 - j), t)[b]
  {
    WordAt(if t == 0 then 0x3b6a57b2 else if t == 1 then 0x26508e6d else if t == 2 then 0x1ea119fa
           else if t == 3 then 0x3d4233dd else 0x2a1462b3, j, b);
    Words0(j);
    Words1(j);
    Words2(j);
    Words3(j);
    Words4(j);
  }

  // ---------- one step ----------

  /** Group j of a register, counted from the lowest. */
  ghost function Group(c: Bits, j: nat): (g: Bits)
    requires |c| == SIZE && j < 6
    ensures |g| == 5
  {
    c[5 * j..5 * j + 5]
  }

  lemma FoldIsMix(c: Bits, i: nat)
    requires |c| == SIZE && i < SIZE
    ensures Fold(c, i) == MixBit(Group(c, 5), Generator(0)[i], Generator(1)[i], Generator(2)[i], Generator(3)[i], Generator(4)[i])
  {
    var top := Group(c, 5);
    assert top[0] == c[25] && top[1] == c[26] && top[2] == c[27] && top[3] == c[28] && top[4] == c[29];
  }

  lemma FoldIsProduct(c: Bits, j: nat, b: nat)
    requires |c| == SIZE && j < 6 && b < 5
    ensures Fold(c, 5 * j + b) == Times(Group(c, 5), G(6 - j))[b]
  {
    var g := G(6 - j);
    FoldIsMix(c, 5 * j + b);
    WordsAreMultiples(0, j, b);
    WordsAreMultiples(1, j, b);
    WordsAreMultiples(2, j, b);
    WordsAreMultiples(3, j, b);
    WordsAreMultiples(4, j, b);
    MixAt(Group(c, 5), TimesAs(g, 0), TimesAs(g, 1), TimesAs(g, 2), TimesAs(g, 3), TimesAs(g, 4), b);
  }

  /** The register times x, plus the input, less the generator times the coefficient that overflows. */
  lemma StepIsReduction(c: Bits, v: Bits, j: nat)
    requires |c| == SIZE && |v| == 5 && j < 6
    ensures Group(Step(c, v), j) == Xor(if j == 0 then v else Group(c, j - 1), Times(Group(c, 5), G(6 - j)))
  {
    var r, s := Group(Step(c, v), j), Xor(if j == 0 then v else Group(c, j - 1), Times(Group(c, 5), G(6 - j)));
    forall b | 0 <= b < 5 ensures r[b] == s[b] {
      StepAt(c, v, 5 * j + b);
      FoldIsProduct(c, j, b);
    }
  }

  // ---------- the remainder ----------

  /** Term j of the product of q and the generator at position k: q and the product are written highest
      coefficient first. */
  ghost function Term(q: seq<Bits>, k: int, j: nat): (r: Bits)
    requires Groups(q) && j <= 6
    ensures |r| == 5
  {
    if 0 <= k - j < |q| then Times(q[k - j], G(j)) else Zeros(5)
  }

  /** The terms up to j of coefficient k of the product of q and the generator. */
  ghost function Partial(q: seq<Bits>, k: int, j: nat): (r: Bits)
    requires Groups(q) && j <= 6
    ensures |r| == 5
  {
    if j == 0 then Term(q, k, 0) else Xor(Partial(q, k, j - 1), Term(q, k, j))
  }

  /** Coefficient k of the product of q and the generator. */
  ghost function Product(q: seq<Bits>, k: int): (r: Bits)
    requires Groups(q)
    ensures |r| == 5
  {
    Partial(q, k, 6)
  }

  /** Coefficient k of w, with six zeroes in front. */
  ghost function Coefficient(w: seq<Bits>, k: int): (r: Bits)
    requires Groups(w)
    ensures |r| == 5
  {
    if 6 <= k < |w| + 6 then w[k - 6] else Zeros(5)
  }

  /** Coefficient k of the register, which holds the last six of n + 6. */
  ghost function Rest(c: Bits, n: nat, k: int): (r: Bits)
    requires |c| == SIZE
    ensures |r| == 5
  {
    if n <= k < n + 6 then Group(c, n + 5 - k) else Zeros(5)
  }

  /** w is q times the generator plus a rest of degree below six, coefficient by coefficient. */
  ghost predicate Divides(w: seq<Bits>, q: seq<Bits>, c: Bits) {
    && Groups(w) && Groups(q) && |c| == SIZE && |q| == |w|
    && forall k | 0 <= k < |w| + 6 :: DividesAt(w, q, c, k)
  }

  ghost predicate DividesAt(w: seq<Bits>, q: seq<Bits>, c: Bits, k: int)
    requires Groups(w) && Groups(q) && |c| == SIZE
  {
    Coefficient(w, k) == Xor(Product(q, k), Rest(c, |w|, k))
  }

  lemma XorZero(a: Bits)
    requires |a| == 5
    ensures Xor(a, Zeros(5)) == a && Xor(Zeros(5), a) == a && Xor(a, a) == Zeros(5)
  {
  }

  lemma XorSwap(a: Bits, b: Bits, c: Bits)
    requires |a| == |b| == |c| == 5
    ensures Xor(Xor(a, b), c) == Xor(Xor(a, c), b) && Xor(Xor(a, b), Xor(c, b)) == Xor(a, c)
  {
  }

  lemma TermNext(q: seq<Bits>, t: Bits, k: int, j: nat)
    requires Groups(q) && |t| == 5 && j <= 6
    ensures Groups(q + [t]) && Term(q + [t], k, j) == if k - |q| == j then Times(t, G(j)) else Term(q, k, j)
    ensures k - |q| == j ==> Term(q, k, j) == Zeros(5)
  {
  }

  /** One more coefficient of q adds one term. */
  lemma {:induction false} PartialNext(q: seq<Bits>, t: Bits, k: int, j: nat)
    requires Groups(q) && |t| == 5 && j <= 6
    ensures Groups(q + [t])
    ensures Partial(q + [t], k, j) == Xor(Partial(q, k, j), if 0 <= k - |q| <= j then Times(t, G(k - |q|)) else Zeros(5))
    decreases j
  {
    var d := k - |q|;
    TermNext(q, t, k, j);
    if j == 0 {
      XorZero(Term(q + [t], k, 0));
    } else {
      PartialNext(q, t, k, j - 1);
      if d == j {
        XorZero(Partial(q, k, j - 1));
      } else {
        XorSwap(Partial(q, k, j - 1), if 0 <= d < j then Times(t, G(d)) else Zeros(5), Term(q, k, j));
      }
    }
  }

  lemma RestNext(c: Bits, v: Bits, n: nat, k: int)
    requires |c| == SIZE && |v| == 5 && n <= k <= n + 6
    ensures Xor(Times(Group(c, 5), G(k - n)), Rest(Step(c, v), n + 1, k)) == if k == n + 6 then v else Group(c, n + 5 - k)
  {
    var top, t := Group(c, 5), Times(Group(c, 5), G(k - n));
    if k == n {
      TimesCommutes(top, Five(1));
      TimesOne(top);
      XorZero(top);
    } else {
      StepIsReduction(c, v, n + 6 - k);
      var shifted := if k == n + 6 then v else Group(c, n + 5 - k);
      XorCancels(t, shifted);
      assert Xor(shifted, t) == Xor(t, shifted);
    }
  }

  lemma DividesBefore(w: seq<Bits>, q: seq<Bits>, c: Bits, v: Bits, k: int)
    requires Divides(w, q, c) && |v| == 5 && 0 <= k < |w| && Groups(w + [v]) && Groups(q + [Group(c, 5)])
    ensures DividesAt(w + [v], q + [Group(c, 5)], Step(c, v), k)
  {
    PartialNext(q, Group(c, 5), k, 6);
    XorZero(Product(q, k));
    assert DividesAt(w, q, c, k);
  }

  lemma DividesWithin(w: seq<Bits>, q: seq<Bits>, c: Bits, v: Bits, k: int)
    requires Divides(w, q, c) && |v| == 5 && |w| <= k < |w| + 6 && Groups(w + [v]) && Groups(q + [Group(c, 5)])
    ensures DividesAt(w + [v], q + [Group(c, 5)], Step(c, v), k)
  {
    var n, top := |w|, Group(c, 5);
    PartialNext(q, top, k, 6);
    RestNext(c, v, n, k);
    SumOfThree(Product(q, k), Times(top, G(k - n)), Rest(Step(c, v), n + 1, k));
    assert DividesAt(w, q, c, k);
  }

  lemma DividesLast(w: seq<Bits>, q: seq<Bits>, c: Bits, v: Bits)
    requires Groups(w) && Groups(q) && |q| == |w| && |c| == SIZE && |v| == 5 && Groups(w + [v]) && Groups(q + [Group(c, 5)])
    ensures DividesAt(w + [v], q + [Group(c, 5)], Step(c, v), |w| + 6)
  {
    var n, k, top := |w|, |w| + 6, Group(c, 5);
    PartialNext(q, top, k, 6);
    RestNext(c, v, n, k);
    SumOfThree(Product(q, k), Times(top, G(6)), Rest(Step(c, v), n + 1, k));
    NoTerms(q, k, 6);
    XorZero(v);
  }

  lemma SumOfThree(a: Bits, b: Bits, c: Bits)
    requires |a| == |b| == |c| == 5
    ensures Xor(Xor(a, b), c) == Xor(a, Xor(b, c))
  {
  }

  lemma {:induction false} NoTerms(q: seq<Bits>, k: int, j: nat)
    requires Groups(q) && j <= 6 && k >= |q| + j
    ensures Partial(q, k, j) == Zeros(5)
    decreases j
  {
    XorZero(Zeros(5));
    if j > 0 { NoTerms(q, k, j - 1); }
  }

  lemma DividesNext(w: seq<Bits>, q: seq<Bits>, c: Bits, v: Bits)
    requires Divides(w, q, c) && |v| == 5
    ensures Divides(w + [v], q + [Group(c, 5)], Step(c, v))
  {
    forall k | 0 <= k < |w + [v]| + 6 ensures DividesAt(w + [v], q + [Group(c, 5)], Step(c, v), k) {
      if k < |w| {
        DividesBefore(w, q, c, v, k);
      } else if k < |w| + 6 {
        DividesWithin(w, q, c, v, k);
      } else {
        DividesLast(w, q, c, v);
      }
    }
  }

  /** Whatever runs through the register leaves its remainder there. */
  lemma {:induction false} RunDivides(w: seq<Bits>) returns (q: seq<Bits>)
    requires Groups(w)
    ensures Divides(w, q, Run(Zeros(SIZE), w))
    decreases |w|
  {
    if w == [] {
      q := [];
      forall k | 0 <= k < 6 ensures DividesAt(w, q, Zeros(SIZE), k) {
        EmptyProduct(k, 6);
        XorZero(Zeros(5));
        assert Group(Zeros(SIZE), 5 - k) == Zeros(5);
      }
    } else {
      var last := |w| - 1;
      q := RunDivides(w[..last]);
      var c := Run(Zeros(SIZE), w[..last]);
      DividesNext(w[..last], q, c, w[last]);
      q := q + [Group(c, 5)];
      assert w[..last] + [w[last]] == w;
    }
  }

  lemma {:induction false} EmptyProduct(k: int, j: nat)
    requires j <= 6
    ensures Partial([], k, j) == Zeros(5)
    decreases j
  {
    XorZero(Zeros(5));
    if j > 0 { EmptyProduct(k, j - 1); }
  }

  /** The checksum of some values is the remainder of the polynomial with these coefficients, behind a leading
      one, modulo the generator. */
  lemma ChecksumIsRemainder(v: seq<nat>) returns (q: seq<Bits>)
    ensures Divides([Five(1)] + ToGroups(v), q, Checksum(v))
  {
    var w := [Five(1)] + ToGroups(v);
    q := RunDivides(w);
    RunConcat(Zeros(SIZE), [Five(1)], ToGroups(v));
    StartsWithOne();
  }

  lemma StartsWithOne()
    ensures Run(Zeros(SIZE), [Five(1)]) == ONE
  {
    assert [Five(1)][..0] == [];
    StepSmall(Zeros(SIZE), Five(1));
    OneIsLow();
  }

  lemma OneAt(i: nat)
    requires i < SIZE
    ensures ONE[i] == (i == 0)
  {
    if i > 0 {
      P2Mono(1, i);
      assert 1 / P2(i) == 0;
    }
  }

  lemma OneIsLow()
    ensures Five(1) + Zeros(SIZE)[..25] == ONE
  {
    var low := Five(1) + Zeros(SIZE)[..25];
    forall i | 0 <= i < SIZE ensures ONE[i] == low[i] {
      OneAt(i);
    }
  }

  // ---------- there is only one ----------

  lemma TermFirst(q: seq<Bits>, k: nat)
    requires Groups(q) && k < |q|
    ensures Term(q, k, 0) == q[k]
  {
    TimesCommutes(q[k], Five(1));
    TimesOne(q[k]);
  }

  /** The further terms depend on the coefficients before k only. */
  lemma {:induction false} LaterTerms(p: seq<Bits>, q: seq<Bits>, k: nat, j: nat)
    requires Groups(p) && Groups(q) && |p| == |q| && k < |p| + 6 && j <= 6
    requires forall i | 0 <= i < k && i < |p| :: p[i] == q[i]
    ensures Xor(Partial(p, k, j), Term(p, k, 0)) == Xor(Partial(q, k, j), Term(q, k, 0))
    decreases j
  {
    if j == 0 {
      XorZero(Term(p, k, 0));
      XorZero(Term(q, k, 0));
    } else {
      LaterTerms(p, q, k, j - 1);
      assert Term(p, k, j) == Term(q, k, j);
      XorSwap(Partial(p, k, j - 1), Term(p, k, j), Term(p, k, 0));
      XorSwap(Partial(q, k, j - 1), Term(q, k, j), Term(q, k, 0));
    }
  }

  lemma {:induction false} SameQuotient(w: seq<Bits>, p: seq<Bits>, c: Bits, q: seq<Bits>, d: Bits, k: nat)
    requires Divides(w, p, c) && Divides(w, q, d) && k <= |w|
    ensures forall i | 0 <= i < k :: p[i] == q[i]
    decreases k
  {
    if k > 0 {
      var i := k - 1;
      SameQuotient(w, p, c, q, d, i);
      assert DividesAt(w, p, c, i) && DividesAt(w, q, d, i);
      XorZero(Product(p, i));
      XorZero(Product(q, i));
      LaterTerms(p, q, i, 6);
      TermFirst(p, i);
      TermFirst(q, i);
      XorCancels(Product(p, i), p[i]);
      XorCancels(Product(q, i), q[i]);
    }
  }

  lemma SameRestAt(w: seq<Bits>, q: seq<Bits>, c: Bits, d: Bits, j: nat)
    requires Divides(w, q, c) && Divides(w, q, d) && j < 6
    ensures Group(c, j) == Group(d, j)
  {
    var k := |w| + 5 - j;
    assert DividesAt(w, q, c, k) && DividesAt(w, q, d, k);
    XorCancels(Product(q, k), Group(c, j));
    XorCancels(Product(q, k), Group(d, j));
  }

  lemma SameGroups(c: Bits, d: Bits)
    requires |c| == |d| == SIZE && forall j | 0 <= j < 6 :: Group(c, j) == Group(d, j)
    ensures c == d
  {
    forall i | 0 <= i < SIZE ensures c[i] == d[i] {
      assert Group(c, i / 5)[i % 5] == c[i] && Group(d, i / 5)[i % 5] == d[i];
    }
  }

  /** Quotient and remainder are determined. */
  lemma RemainderUnique(w: seq<Bits>, p: seq<Bits>, c: Bits, q: seq<Bits>, d: Bits)
    requires Divides(w, p, c) && Divides(w, q, d)
    ensures p == q && c == d
  {
    SameQuotient(w, p, c, q, d, |w|);
    assert p == q;
    forall j | 0 <= j < 6 ensures Group(c, j) == Group(d, j) {
      SameRestAt(w, q, c, d, j);
    }
    SameGroups(c, d);
  }
}
