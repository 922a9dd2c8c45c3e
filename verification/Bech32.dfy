/** Bech32 and Bech32m strings (src/bech32.h, src/bech32.cpp). */
module Bech32 {
  import opened Powers
  import opened Sequences

  // ---------- words as their bits, least significant first ----------

  const SIZE := 30

  type Bits = seq<bool>

  function Xor(a: Bits, b: Bits): (r: Bits)
    requires |a| == |b|
    ensures |r| == |a| && forall i | 0 <= i < |a| :: r[i] == (a[i] != b[i])
  {
    seq(|a|, i requires 0 <= i < |a| => a[i] != b[i])
  }

  function Zeros(n: nat): (r: Bits)
    ensures |r| == n && forall i | 0 <= i < n :: !r[i]
  {
    seq(n, _ => false)
  }

  /** A 5-bit value. */
  function Five(v: nat): (r: Bits)
    ensures |r| == 5
  {
    [v % 2 == 1, v / 2 % 2 == 1, v / 4 % 2 == 1, v / 8 % 2 == 1, v / 16 % 2 == 1]
  }

  function Num(g: Bits): (v: nat)
    requires |g| == 5
    ensures v < 32
  {
    (if g[0] then 1 else 0) + (if g[1] then 2 else 0) + (if g[2] then 4 else 0) + (if g[3] then 8 else 0) + (if g[4] then 16 else 0)
  }

  lemma NumFive(v: nat)
    requires v < 32
    ensures Num(Five(v)) == v
  {
  }

  lemma FiveNum(g: Bits)
    requires |g| == 5
    ensures Five(Num(g)) == g
  {
  }

  /** A 30-bit constant. */
  function Word(n: nat): (r: Bits)
    ensures |r| == SIZE
  {
    seq(SIZE, i requires 0 <= i < SIZE => n / P2(i) % 2 == 1)
  }

  // ---------- the checksum register ----------

  // {2^n}k(x) for n = 0..4
  function Generator(n: nat): (r: Bits)
    ensures |r| == SIZE
  {
    Word(if n == 0 then 0x3b6a57b2 else if n == 1 then 0x26508e6d else if n == 2 then 0x1ea119fa
         else if n == 3 then 0x3d4233dd else 0x2a1462b3)
  }

  function XorIf(b: bool, c: Bits, k: Bits): (r: Bits)
    requires |c| == |k|
    ensures |r| == |c| && forall i | 0 <= i < |c| :: r[i] == (c[i] != (b && k[i]))
  {
    if b then Xor(c, k) else c
  }

  /** What the group shifted out adds to bit i. */
  function Fold(c: Bits, i: nat): bool
    requires |c| == SIZE && i < SIZE
  {
    (c[25] && Generator(0)[i]) != ((c[26] && Generator(1)[i]) != ((c[27] && Generator(2)[i]) !=
      ((c[28] && Generator(3)[i]) != (c[29] && Generator(4)[i]))))
  }

  /** One input: the register shifted up by a group, v below, and the group shifted out folded back in. */
  ghost function Step(c: Bits, v: Bits): (r: Bits)
    requires |c| == SIZE && |v| == 5
    ensures |r| == SIZE
  {
    seq(SIZE, i requires 0 <= i < SIZE => (if i < 5 then v[i] else c[i - 5]) != Fold(c, i))
  }

  lemma StepAt(c: Bits, v: Bits, i: nat)
    requires |c| == SIZE && |v| == 5 && i < SIZE
    ensures Step(c, v)[i] == ((if i < 5 then v[i] else c[i - 5]) != Fold(c, i))
  {
  }

  // for each set bit of c0, one constant is added
  method FoldIn(r: Bits, c0: Bits, k0: Bits, k1: Bits, k2: Bits, k3: Bits, k4: Bits) returns (s: Bits)
    requires |r| == |k0| == |k1| == |k2| == |k3| == |k4| && |c0| == 5
    ensures |s| == |r|
    ensures forall i | 0 <= i < |r| ::
              s[i] == (r[i] != ((c0[0] && k0[i]) != ((c0[1] && k1[i]) != ((c0[2] && k2[i]) !=
                      ((c0[3] && k3[i]) != (c0[4] && k4[i]))))))
  {
    s := XorIf(c0[0], r, k0);
    s := XorIf(c0[1], s, k1);
    s := XorIf(c0[2], s, k2);
    s := XorIf(c0[3], s, k3);
    s := XorIf(c0[4], s, k4);
  }

  // the body of PolyMod's loop
  method Update(c: Bits, v: Bits) returns (r: Bits)
    requires |c| == SIZE && |v| == 5
    ensures |r| == SIZE && r == Step(c, v)
  {
    r := FoldIn(v + c[..25], c[25..], Generator(0), Generator(1), Generator(2), Generator(3), Generator(4));
    forall i | 0 <= i < SIZE ensures r[i] == Step(c, v)[i] {
      StepAt(c, v, i);
    }
  }

  lemma FoldLinear(c: Bits, d: Bits, i: nat)
    requires |c| == |d| == SIZE && i < SIZE
    ensures Fold(Xor(c, d), i) == (Fold(c, i) != Fold(d, i))
  {
    FoldBits(c[25], c[26], c[27], c[28], c[29], d[25], d[26], d[27], d[28], d[29],
             Generator(0)[i], Generator(1)[i], Generator(2)[i], Generator(3)[i], Generator(4)[i]);
  }

  lemma FoldBits(a0: bool, a1: bool, a2: bool, a3: bool, a4: bool, b0: bool, b1: bool, b2: bool, b3: bool, b4: bool,
                 k0: bool, k1: bool, k2: bool, k3: bool, k4: bool)
    ensures (((a0 != b0) && k0) != (((a1 != b1) && k1) != (((a2 != b2) && k2) != (((a3 != b3) && k3) != ((a4 != b4) && k4)))))
         == (((a0 && k0) != ((a1 && k1) != ((a2 && k2) != ((a3 && k3) != (a4 && k4)))))
          != ((b0 && k0) != ((b1 && k1) != ((b2 && k2) != ((b3 && k3) != (b4 && k4))))))
  {
  }

  lemma StepLinearAt(c: Bits, d: Bits, v: Bits, w: Bits, i: nat)
    requires |c| == |d| == SIZE && |v| == |w| == 5 && i < SIZE
    ensures Step(Xor(c, d), Xor(v, w))[i] == (Step(c, v)[i] != Step(d, w)[i])
  {
    StepAt(Xor(c, d), Xor(v, w), i);
    StepAt(c, v, i);
    StepAt(d, w, i);
    FoldLinear(c, d, i);
  }

  lemma StepLinear(c: Bits, d: Bits, v: Bits, w: Bits)
    requires |c| == |d| == SIZE && |v| == |w| == 5
    ensures Step(Xor(c, d), Xor(v, w)) == Xor(Step(c, v), Step(d, w))
  {
    forall i | 0 <= i < SIZE ensures Step(Xor(c, d), Xor(v, w))[i] == Xor(Step(c, v), Step(d, w))[i] {
      StepLinearAt(c, d, v, w, i);
    }
  }

  /** Below a clear top group nothing is folded back. */
  lemma StepSmall(c: Bits, v: Bits)
    requires |c| == SIZE && |v| == 5 && forall i | 25 <= i < SIZE :: !c[i]
    ensures Step(c, v) == v + c[..25]
  {
    forall i | 0 <= i < SIZE ensures Step(c, v)[i] == (v + c[..25])[i] {
      StepAt(c, v, i);
    }
  }

  lemma LowPowers()
    ensures P2(0) == 1 && P2(1) == 2 && P2(2) == 4 && P2(3) == 8 && P2(4) == 16
  {
  }

  // the lowest groups of the multiples of k(x): 18, 13, 26, 29 and 19

  lemma LowOne(j: nat)
    requires j < 5
    ensures Generator(0)[j] == (j == 1 || j == 4)
  {
    LowPowers();
  }

  lemma LowTwo(j: nat)
    requires j < 5
    ensures Generator(1)[j] == (j == 0 || j == 2 || j == 3)
  {
    LowPowers();
  }

  lemma LowFour(j: nat)
    requires j < 5
    ensures Generator(2)[j] == (j == 1 || j == 3 || j == 4)
  {
    LowPowers();
  }

  lemma LowEight(j: nat)
    requires j < 5
    ensures Generator(3)[j] == (j != 1)
  {
    LowPowers();
  }

  lemma LowSixteen(j: nat)
    requires j < 5
    ensures Generator(4)[j] == (j == 0 || j == 1 || j == 4)
  {
    LowPowers();
  }

  /** What the top group adds to the lowest one. */
  lemma FoldLow(c: Bits, j: nat)
    requires |c| == SIZE && j < 5
    ensures j == 0 ==> Fold(c, j) == (c[26] != (c[28] != c[29]))
    ensures j == 1 ==> Fold(c, j) == (c[25] != (c[27] != c[29]))
    ensures j == 2 ==> Fold(c, j) == (c[26] != c[28])
    ensures j == 3 ==> Fold(c, j) == (c[26] != (c[27] != c[28]))
    ensures j == 4 ==> Fold(c, j) == (c[25] != (c[27] != (c[28] != c[29])))
  {
    LowOne(j);
    LowTwo(j);
    LowFour(j);
    LowEight(j);
    LowSixteen(j);
  }

  /** The lowest group of k(x) is a unit, so a top group that leaves no trace there is zero. */
  lemma FoldInjective(c: Bits)
    requires |c| == SIZE && forall j: nat | j < 5 :: !Fold(c, j)
    ensures !c[25] && !c[26] && !c[27] && !c[28] && !c[29]
  {
    FoldLow(c, 0);
    FoldLow(c, 1);
    FoldLow(c, 2);
    FoldLow(c, 3);
    FoldLow(c, 4);
  }

  /** The register forgets no difference. */
  lemma StepInjective(c: Bits)
    requires |c| == SIZE && Step(c, Zeros(5)) == Zeros(SIZE)
    ensures c == Zeros(SIZE)
  {
    forall j: nat | j < 5 ensures !Fold(c, j) {
      StepAt(c, Zeros(5), j);
    }
    FoldInjective(c);
    StepSmall(c, Zeros(5));
    assert c[..25] == Zeros(SIZE)[5..];
    assert c == c[..25] + c[25..];
  }

  // ---------- runs of the register ----------

  ghost predicate Groups(g: seq<Bits>) {
    forall i | 0 <= i < |g| :: |g[i]| == 5
  }

  ghost function Run(c: Bits, g: seq<Bits>): (r: Bits)
    requires |c| == SIZE && Groups(g)
    ensures |r| == SIZE
    decreases |g|
  {
    if g == [] then c else Step(Run(c, g[..|g| - 1]), g[|g| - 1])
  }

  lemma {:induction false} RunConcat(c: Bits, g: seq<Bits>, h: seq<Bits>)
    requires |c| == SIZE && Groups(g) && Groups(h)
    ensures Run(c, g + h) == Run(Run(c, g), h)
    decreases |h|
  {
    if h == [] {
      assert g + h == g;
    } else {
      var k := |h| - 1;
      RunConcat(c, g, h[..k]);
      assert (g + h)[..|g + h| - 1] == g + h[..k];
    }
  }

  /** Groupwise difference. */
  ghost function Difference(g: seq<Bits>, h: seq<Bits>): (r: seq<Bits>)
    requires |g| == |h| && Groups(g) && Groups(h)
    ensures |r| == |g| && Groups(r) && forall i | 0 <= i < |g| :: r[i] == Xor(g[i], h[i])
  {
    seq(|g|, i requires 0 <= i < |g| => Xor(g[i], h[i]))
  }

  lemma {:induction false} RunLinear(c: Bits, d: Bits, g: seq<Bits>, h: seq<Bits>)
    requires |c| == |d| == SIZE && |g| == |h| && Groups(g) && Groups(h)
    ensures Run(Xor(c, d), Difference(g, h)) == Xor(Run(c, g), Run(d, h))
    decreases |g|
  {
    if g != [] {
      var k := |g| - 1;
      RunLinear(c, d, g[..k], h[..k]);
      assert Difference(g, h)[..k] == Difference(g[..k], h[..k]);
      StepLinear(Run(c, g[..k]), Run(d, h[..k]), g[k], h[k]);
    }
  }

  ghost function Blank(n: nat): (g: seq<Bits>)
    ensures |g| == n && Groups(g)
  {
    seq(n, _ => Zeros(5))
  }

  lemma {:induction false} RunKeepsNonzero(c: Bits, n: nat)
    requires |c| == SIZE && c != Zeros(SIZE)
    ensures Run(c, Blank(n)) != Zeros(SIZE)
    decreases n
  {
    if n > 0 {
      RunKeepsNonzero(c, n - 1);
      assert Blank(n)[..n - 1] == Blank(n - 1);
      if Step(Run(c, Blank(n - 1)), Zeros(5)) == Zeros(SIZE) {
        StepInjective(Run(c, Blank(n - 1)));
        assert false;
      }
    }
  }

  lemma {:induction false} RunZero(n: nat)
    ensures Run(Zeros(SIZE), Blank(n)) == Zeros(SIZE)
    decreases n
  {
    if n > 0 {
      RunZero(n - 1);
      assert Blank(n)[..n - 1] == Blank(n - 1);
      StepSmall(Zeros(SIZE), Zeros(5));
    }
  }

  /** Groups stacked up, the last one lowest. */
  ghost function Stack(g: seq<Bits>): (r: Bits)
    requires Groups(g)
    ensures |r| == SIZE
  {
    seq(SIZE, i requires 0 <= i < SIZE => i / 5 < |g| && g[|g| - 1 - i / 5][i % 5])
  }

  lemma StepStack(g: seq<Bits>, k: nat)
    requires Groups(g) && k < |g| <= 6
    ensures Step(Stack(g[..k]), g[k]) == Stack(g[..k + 1])
  {
    StepSmall(Stack(g[..k]), g[k]);
    forall i | 0 <= i < SIZE ensures (g[k] + Stack(g[..k])[..25])[i] == Stack(g[..k + 1])[i] {
      if i >= 5 {
        assert (i - 5) / 5 == i / 5 - 1 && (i - 5) % 5 == i % 5;
      }
    }
  }

  /** Up to six groups just move into an empty register. */
  lemma {:induction false} RunStack(g: seq<Bits>, k: nat)
    requires Groups(g) && k <= |g| <= 6
    ensures Run(Zeros(SIZE), g[..k]) == Stack(g[..k])
    decreases k
  {
    if k == 0 {
      assert Stack(g[..0]) == Zeros(SIZE);
    } else {
      RunStack(g, k - 1);
      StepStack(g, k - 1);
      assert g[..k][..k - 1] == g[..k - 1];
    }
  }

  lemma RunSix(g: seq<Bits>)
    requires Groups(g) && |g| == 6
    ensures Run(Zeros(SIZE), g) == Stack(g)
  {
    RunStack(g, 6);
    assert g[..6] == g;
  }

  // ---------- checksums ----------

  datatype Encoding = BECH32 | BECH32M

  const ONE: Bits := Word(1)

  /** The constant a valid string leaves in the register: 1, or 0x2bc830a3. */
  function EncodingConstant(e: Encoding): (r: Bits)
    ensures |r| == SIZE
  {
    if e == BECH32 then ONE else Word(0x2bc830a3)
  }

  lemma ConstantsDiffer()
    ensures EncodingConstant(BECH32) != EncodingConstant(BECH32M)
  {
    LowPowers();
    assert !EncodingConstant(BECH32)[1] && EncodingConstant(BECH32M)[1];
  }

  ghost predicate IsData(v: seq<nat>) {
    forall i | 0 <= i < |v| :: v[i] < 32
  }

  ghost function ToGroups(v: seq<nat>): (g: seq<Bits>)
    ensures |g| == |v| && Groups(g) && forall i | 0 <= i < |v| :: g[i] == Five(v[i])
  {
    seq(|v|, i requires 0 <= i < |v| => Five(v[i]))
  }

  lemma ToGroupsInjective(v: seq<nat>, w: seq<nat>)
    requires IsData(v) && IsData(w) && ToGroups(v) == ToGroups(w)
    ensures v == w
  {
    assert |v| == |w|;
    forall i | 0 <= i < |v| ensures v[i] == w[i] {
      assert ToGroups(v)[i] == ToGroups(w)[i];
      NumFive(v[i]);
      NumFive(w[i]);
    }
  }

  ghost function Checksum(v: seq<nat>): (r: Bits)
    ensures |r| == SIZE
  {
    Run(ONE, ToGroups(v))
  }

  method PolyMod(v: seq<nat>) returns (c: Bits)
    requires IsData(v)
    ensures |c| == SIZE && c == Checksum(v)
  {
    c := ONE;
    for i := 0 to |v|
      invariant |c| == SIZE && c == Checksum(v[..i])
    {
      assert ToGroups(v[..i + 1])[..i] == ToGroups(v[..i]);
      c := Update(c, Five(v[i]));
    }
    assert v[..|v|] == v;
  }

  lemma XorZeros(a: Bits)
    ensures Xor(a, Zeros(|a|)) == a && Xor(Zeros(|a|), a) == a && Xor(a, a) == Zeros(|a|)
  {
  }

  lemma XorCancels(a: Bits, b: Bits)
    requires |a| == |b|
    ensures Xor(a, Xor(a, b)) == b
  {
  }

  lemma BlankDifference(g: seq<Bits>)
    requires Groups(g)
    ensures Difference(Blank(|g|), g) == g
  {
    forall i | 0 <= i < |g| ensures Difference(Blank(|g|), g)[i] == g[i] {
      XorZeros(g[i]);
    }
  }

  /** The last six groups enter the checksum as they are. */
  lemma LastSix(c: Bits, g: seq<Bits>)
    requires |c| == SIZE && Groups(g) && |g| == 6
    ensures Run(c, g) == Xor(Run(c, Blank(6)), Stack(g))
  {
    RunLinear(c, Zeros(SIZE), Blank(6), g);
    BlankDifference(g);
    XorZeros(c);
    RunSix(g);
  }

  lemma ChecksumOf(x: seq<nat>, r: seq<nat>)
    requires |r| == 6
    ensures Checksum(x + r) == Xor(Checksum(x + [0, 0, 0, 0, 0, 0]), Stack(ToGroups(r)))
  {
    var c := Run(ONE, ToGroups(x));
    ChecksumSplit(x, r);
    ChecksumSplit(x, [0, 0, 0, 0, 0, 0]);
    LastSix(c, ToGroups(r));
    ZeroGroups();
  }

  lemma ZeroGroups()
    ensures ToGroups([0, 0, 0, 0, 0, 0]) == Blank(6)
  {
    assert Five(0) == Zeros(5);
  }

  lemma ChecksumSplit(x: seq<nat>, r: seq<nat>)
    ensures Checksum(x + r) == Run(Run(ONE, ToGroups(x)), ToGroups(r))
  {
    assert ToGroups(x + r) == ToGroups(x) + ToGroups(r);
    RunConcat(ONE, ToGroups(x), ToGroups(r));
  }

  // ---------- detecting errors ----------

  /** The two lists agree outside the six places from p on. */
  ghost predicate AgreeOutside(x: seq<nat>, y: seq<nat>, p: nat) {
    |x| == |y| && p + 6 <= |x| && forall i | 0 <= i < |x| && !(p <= i < p + 6) :: x[i] == y[i]
  }

  lemma DifferenceShape(x: seq<nat>, y: seq<nat>, p: nat)
    requires AgreeOutside(x, y, p)
    ensures var d := Difference(ToGroups(x), ToGroups(y));
            d == Blank(p) + d[p..p + 6] + Blank(|x| - p - 6)
  {
    var d := Difference(ToGroups(x), ToGroups(y));
    var e := Blank(p) + d[p..p + 6] + Blank(|x| - p - 6);
    forall i | 0 <= i < |x| ensures d[i] == e[i] {
      if !(p <= i < p + 6) { XorZeros(Five(x[i])); }
    }
  }

  /** Bit b of group j sits at 5 * (5 - j) + b. */
  lemma StackAt(g: seq<Bits>, j: nat, b: nat)
    requires Groups(g) && |g| == 6 && j < 6 && b < 5
    ensures Stack(g)[5 * (5 - j) + b] == g[j][b]
  {
    var i := 5 * (5 - j) + b;
    assert i / 5 == 5 - j && i % 5 == b;
  }

  lemma StackZero(g: seq<Bits>, j: nat)
    requires Groups(g) && |g| == 6 && j < 6 && Stack(g) == Zeros(SIZE)
    ensures g[j] == Zeros(5)
  {
    forall b | 0 <= b < 5 ensures !g[j][b] {
      StackAt(g, j, b);
    }
  }

  lemma SameGroup(a: Bits, b: Bits)
    requires |a| == |b| && Xor(a, b) == Zeros(|a|)
    ensures a == b
  {
    forall i | 0 <= i < |a| ensures a[i] == b[i] {
      assert Xor(a, b)[i] == Zeros(|a|)[i];
    }
  }

  lemma RunWindow(d: seq<Bits>, p: nat, k: nat)
    requires Groups(d) && |d| == 6
    ensures Run(Zeros(SIZE), Blank(p) + d + Blank(k)) == Run(Stack(d), Blank(k))
  {
    RunConcat(Zeros(SIZE), Blank(p) + d, Blank(k));
    RunConcat(Zeros(SIZE), Blank(p), d);
    RunZero(p);
    RunSix(d);
  }

  /** A six-place window that leaves no trace holds no difference. */
  lemma WindowSeen(d: seq<Bits>, p: nat, k: nat)
    requires Groups(d) && |d| == 6 && Run(Zeros(SIZE), Blank(p) + d + Blank(k)) == Zeros(SIZE)
    ensures Stack(d) == Zeros(SIZE)
  {
    RunWindow(d, p, k);
    if Stack(d) != Zeros(SIZE) {
      RunKeepsNonzero(Stack(d), k);
      assert false;
    }
  }

  lemma NoTrace(x: seq<nat>, y: seq<nat>)
    requires |x| == |y| && Checksum(x) == Checksum(y)
    ensures Run(Zeros(SIZE), Difference(ToGroups(x), ToGroups(y))) == Zeros(SIZE)
  {
    RunLinear(ONE, ONE, ToGroups(x), ToGroups(y));
    XorZeros(ONE);
    XorZeros(Checksum(x));
  }

  lemma WindowSame(x: seq<nat>, y: seq<nat>, p: nat, d: seq<Bits>, i: nat)
    requires |x| == |y| && p <= i < p + 6 <= |x| && d == Difference(ToGroups(x), ToGroups(y))[p..p + 6]
    requires Stack(d) == Zeros(SIZE)
    ensures ToGroups(x)[i] == ToGroups(y)[i]
  {
    StackZero(d, i - p);
    SameGroup(ToGroups(x)[i], ToGroups(y)[i]);
  }

  /** At any length, a change confined to six neighbouring values changes the checksum. */
  lemma BurstDetected(x: seq<nat>, y: seq<nat>, p: nat)
    requires IsData(x) && IsData(y) && AgreeOutside(x, y, p) && Checksum(x) == Checksum(y)
    ensures x == y
  {
    var d := Difference(ToGroups(x), ToGroups(y))[p..p + 6];
    NoTrace(x, y);
    DifferenceShape(x, y, p);
    WindowSeen(d, p, |x| - p - 6);
    forall i | 0 <= i < |x| ensures ToGroups(x)[i] == ToGroups(y)[i] {
      if p <= i < p + 6 { WindowSame(x, y, p, d, i); }
    }
    ToGroupsInjective(x, y);
  }

  // ---------- the human-readable part ----------

  function Code(c: char): nat { c as int }

  /** The high bits of every character, a zero, then the low bits. */
  function Expand(hrp: string): (r: seq<nat>)
    ensures |r| == 2 * |hrp| + 1
  {
    seq(|hrp|, i requires 0 <= i < |hrp| => Code(hrp[i]) / 32) + [0] + seq(|hrp|, i requires 0 <= i < |hrp| => Code(hrp[i]) % 32)
  }

  /** A std::string, whose characters are single bytes. */
  ghost predicate IsByteString(s: string) {
    forall i | 0 <= i < |s| :: Code(s[i]) < 256
  }

  lemma ExpandIsData(hrp: string)
    requires IsByteString(hrp)
    ensures IsData(Expand(hrp))
  {
  }

  method ExpandHRP(hrp: string) returns (ret: seq<nat>)
    ensures ret == Expand(hrp)
  {
    ret := seq(2 * |hrp| + 1, _ => 0);
    for i := 0 to |hrp|
      invariant |ret| == 2 * |hrp| + 1 && ret[|hrp|] == 0
      invariant forall j | 0 <= j < i :: ret[j] == Code(hrp[j]) / 32 && ret[j + |hrp| + 1] == Code(hrp[j]) % 32
    {
      ret := ret[i := Code(hrp[i]) / 32];
      ret := ret[i + |hrp| + 1 := Code(hrp[i]) % 32];
    }
  }

  /** Group i of a register, counted from the top. */
  function GroupAt(m: Bits, i: nat): (g: Bits)
    requires |m| == SIZE && i < 6
    ensures |g| == 5
  {
    m[5 * (5 - i)..5 * (5 - i) + 5]
  }

  ghost predicate Unpacks(m: Bits, r: seq<nat>) {
    |m| == SIZE && |r| == 6 && forall i | 0 <= i < 6 :: r[i] == Num(GroupAt(m, i))
  }

  /** Cutting a register into values and stacking them up again. */
  lemma UnpackStack(m: Bits, r: seq<nat>)
    requires Unpacks(m, r)
    ensures IsData(r) && Stack(ToGroups(r)) == m
  {
    var g := ToGroups(r);
    forall i | 0 <= i < 6 ensures g[i] == GroupAt(m, i) {
      FiveNum(GroupAt(m, i));
    }
    forall i | 0 <= i < SIZE ensures Stack(g)[i] == m[i] {
      var j := 5 - i / 5;
      assert g[j] == GroupAt(m, j) && i == 5 * (5 - j) + i % 5;
      StackAt(g, j, i % 5);
    }
  }

  // the 5-bit groups of mod, from the top
  method Unpack(mod: Bits) returns (ret: seq<nat>)
    requires |mod| == SIZE
    ensures Unpacks(mod, ret)
  {
    ret := [];
    for i := 0 to 6
      invariant |ret| == i && forall j | 0 <= j < i :: ret[j] == Num(GroupAt(mod, j))
    {
      ret := ret + [Num(GroupAt(mod, i))];
    }
  }

  lemma ChecksumMade(x: seq<nat>, c: Bits, ret: seq<nat>)
    requires |c| == SIZE && Unpacks(Xor(Checksum(x + [0, 0, 0, 0, 0, 0]), c), ret)
    ensures IsData(ret) && Checksum(x + ret) == c
  {
    var m := Checksum(x + [0, 0, 0, 0, 0, 0]);
    UnpackStack(Xor(m, c), ret);
    ChecksumOf(x, ret);
    XorCancels(m, c);
  }

  // CreateChecksum
  method CreateChecksum(e: Encoding, hrp: string, values: seq<nat>) returns (ret: seq<nat>)
    requires IsByteString(hrp) && IsData(values)
    ensures |ret| == 6 && IsData(ret) && Checksum(Expand(hrp) + values + ret) == EncodingConstant(e)
  {
    var x := ExpandHRP(hrp);
    var enc := x + values;
    ExpandIsData(hrp);
    var m := PolyMod(enc + [0, 0, 0, 0, 0, 0]);
    ret := Unpack(Xor(m, EncodingConstant(e)));
    ChecksumMade(enc, EncodingConstant(e), ret);
  }

  lemma StackInjective(g: seq<Bits>, h: seq<Bits>)
    requires Groups(g) && Groups(h) && |g| == |h| == 6 && Stack(g) == Stack(h)
    ensures g == h
  {
    forall j | 0 <= j < 6 ensures g[j] == h[j] {
      forall b | 0 <= b < 5 ensures g[j][b] == h[j][b] {
        StackAt(g, j, b);
        StackAt(h, j, b);
      }
    }
  }

  /** Only one choice of the last six values gives a checksum. */
  lemma ChecksumUnique(x: seq<nat>, r: seq<nat>, s: seq<nat>)
    requires |r| == |s| == 6 && IsData(r) && IsData(s) && Checksum(x + r) == Checksum(x + s)
    ensures r == s
  {
    ChecksumOf(x, r);
    ChecksumOf(x, s);
    var m := Checksum(x + [0, 0, 0, 0, 0, 0]);
    XorCancels(m, Stack(ToGroups(r)));
    XorCancels(m, Stack(ToGroups(s)));
    StackInjective(ToGroups(r), ToGroups(s));
    ToGroupsInjective(r, s);
  }

  // ---------- the character set ----------

  function Symbol(v: nat): char
    requires v < 32
  {
    if v == 0 then 'q' else if v == 1 then 'p' else if v == 2 then 'z' else if v == 3 then 'r' else
    if v == 4 then 'y' else if v == 5 then '9' else if v == 6 then 'x' else if v == 7 then '8' else
    if v == 8 then 'g' else if v == 9 then 'f' else if v == 10 then '2' else if v == 11 then 't' else
    if v == 12 then 'v' else if v == 13 then 'd' else if v == 14 then 'w' else if v == 15 then '0' else
    if v == 16 then 's' else if v == 17 then '3' else if v == 18 then 'j' else if v == 19 then 'n' else
    if v == 20 then '5' else if v == 21 then '4' else if v == 22 then 'k' else if v == 23 then 'h' else
    if v == 24 then 'c' else if v == 25 then 'e' else if v == 26 then '6' else if v == 27 then 'm' else
    if v == 28 then 'u' else if v == 29 then 'a' else if v == 30 then '7' else 'l'
  }

  function LowerCase(c: char): char {
    if 'A' <= c <= 'Z' then (c as int - 'A' as int + 'a' as int) as char else c
  }

  /** CHARSET_REV, for a lower-case letter or a digit; -1 for any other character. */
  function LowerValue(c: char): int {
    if c == 'q' then 0 else if c == 'p' then 1 else if c == 'z' then 2 else if c == 'r' then 3 else
    if c == 'y' then 4 else if c == '9' then 5 else if c == 'x' then 6 else if c == '8' then 7 else
    if c == 'g' then 8 else if c == 'f' then 9 else if c == '2' then 10 else if c == 't' then 11 else
    if c == 'v' then 12 else if c == 'd' then 13 else if c == 'w' then 14 else if c == '0' then 15 else
    if c == 's' then 16 else if c == '3' then 17 else if c == 'j' then 18 else if c == 'n' then 19 else
    if c == '5' then 20 else if c == '4' then 21 else if c == 'k' then 22 else if c == 'h' then 23 else
    if c == 'c' then 24 else if c == 'e' then 25 else if c == '6' then 26 else if c == 'm' then 27 else
    if c == 'u' then 28 else if c == 'a' then 29 else if c == '7' then 30 else if c == 'l' then 31 else -1
  }

  /** CHARSET_REV knows both cases. */
  function Value(c: char): int {
    LowerValue(LowerCase(c))
  }

  predicate Printable(c: char) {
    33 <= c as int <= 126
  }

  predicate Upper(c: char) {
    'A' <= c <= 'Z'
  }

  predicate Lower(c: char) {
    'a' <= c <= 'z'
  }

  lemma SymbolValue(v: nat)
    requires v < 32
    ensures LowerValue(Symbol(v)) == v
  {
  }

  lemma SymbolPlain(v: nat)
    requires v < 32
    ensures Printable(Symbol(v)) && !Upper(Symbol(v)) && Symbol(v) != '1'
  {
  }

  lemma ValueSymbol(c: char)
    requires LowerValue(c) != -1
    ensures 0 <= LowerValue(c) < 32 && Symbol(LowerValue(c)) == c
  {
  }

  // ---------- strings ----------

  function Lowered(s: string): (r: string)
    ensures |r| == |s|
  {
    seq(|s|, i requires 0 <= i < |s| => LowerCase(s[i]))
  }

  ghost function Symbols(v: seq<nat>): (r: string)
    requires IsData(v)
    ensures |r| == |v|
  {
    seq(|v|, i requires 0 <= i < |v| => Symbol(v[i]))
  }

  ghost predicate AllValues(s: string) {
    forall i | 0 <= i < |s| :: Value(s[i]) != -1
  }

  ghost predicate AreValues(s: string, v: seq<nat>) {
    |v| == |s| && forall i | 0 <= i < |s| :: v[i] == Value(s[i])
  }

  ghost predicate AllPrintable(s: string) {
    forall i | 0 <= i < |s| :: Printable(s[i])
  }

  ghost predicate NoUpper(s: string) {
    forall i | 0 <= i < |s| :: !Upper(s[i])
  }

  ghost predicate NoLower(s: string) {
    forall i | 0 <= i < |s| :: !Lower(s[i])
  }

  /** p is the position of the last 1. */
  ghost predicate IsLastOne(s: string, p: nat) {
    p < |s| && s[p] == '1' && forall i | p < i < |s| :: s[i] != '1'
  }

  datatype Decoding = Decoding(encoding: Encoding, hrp: string, data: seq<nat>)

  /** str is a correct string for the given parts. */
  ghost predicate IsEncoding(d: Decoding, str: string) {
    exists cs: seq<nat> :: EncodedWith(d, cs, str)
  }

  ghost predicate EncodedWith(d: Decoding, cs: seq<nat>, str: string) {
    && IsData(d.data) && IsData(cs) && |cs| == 6
    && Checksum(Expand(d.hrp) + d.data + cs) == EncodingConstant(d.encoding)
    && str == d.hrp + ['1'] + Symbols(d.data + cs)
  }

  /** The conditions under which str decodes to d. */
  ghost predicate IsDecoding(str: string, extLength: bool, d: Decoding) {
    && AllPrintable(str) && (NoUpper(str) || NoLower(str)) && (|str| <= 90 || extLength)
    && exists p: nat, v: seq<nat> :: DecodedWith(str, d, p, v)
  }

  ghost predicate DecodedWith(str: string, d: Decoding, p: nat, v: seq<nat>) {
    && IsLastOne(str, p) && p >= 1 && p + 7 <= |str|
    && AllValues(str[p + 1..]) && AreValues(str[p + 1..], v)
    && d.hrp == Lowered(str[..p]) && d.data == v[..|v| - 6]
    && Checksum(Expand(d.hrp) + v) == EncodingConstant(d.encoding)
  }

  // Encode
  method Encode(d: Decoding) returns (ret: string)
    requires IsData(d.data) && IsByteString(d.hrp) && NoUpper(d.hrp)
    ensures IsEncoding(d, ret)
  {
    var checksum := CreateChecksum(d.encoding, d.hrp, d.data);
    var combined := d.data + checksum;
    ret := d.hrp + ['1'];
    for i := 0 to |combined|
      invariant ret == d.hrp + ['1'] + Symbols(combined)[..i]
    {
      ret := ret + [Symbol(combined[i])];
    }
    assert EncodedWith(d, checksum, ret);
  }

  // the first loop of Decode
  method CheckCase(str: string) returns (ok: bool)
    ensures ok <==> AllPrintable(str) && (NoUpper(str) || NoLower(str))
  {
    var lower, upper := false, false;
    for i := 0 to |str|
      invariant AllPrintable(str[..i]) && (!lower <==> NoLower(str[..i])) && (!upper <==> NoUpper(str[..i]))
    {
      var c := str[i];
      if Lower(c) {
        lower := true;
      } else if Upper(c) {
        upper := true;
      } else if !Printable(c) {
        return false;
      }
      assert str[..i + 1] == str[..i] + [c];
    }
    assert str[..|str|] == str;
    return !(lower && upper);
  }

  // str.rfind('1')
  method RFind(str: string) returns (pos: int)
    ensures -1 <= pos < |str|
    ensures pos >= 0 ==> IsLastOne(str, pos)
    ensures pos == -1 ==> forall i | 0 <= i < |str| :: str[i] != '1'
  {
    pos := |str| - 1;
    while pos >= 0 && str[pos] != '1'
      invariant -1 <= pos < |str| && forall i | pos < i < |str| :: str[i] != '1'
    {
      pos := pos - 1;
    }
  }

  // the loop over the data part
  method ReadValues(s: string) returns (ok: bool, values: seq<nat>)
    ensures ok <==> AllValues(s)
    ensures ok ==> AreValues(s, values)
  {
    values := [];
    for i := 0 to |s|
      invariant AllValues(s[..i]) && AreValues(s[..i], values)
    {
      var rev := Value(s[i]);
      if rev == -1 {
        return false, values;
      }
      ValueSymbol(LowerCase(s[i]));
      assert s[..i + 1] == s[..i] + [s[i]];
      values := values + [rev];
    }
    assert s[..|s|] == s;
    return true, values;
  }

  // VerifyChecksum
  method VerifyChecksum(hrp: string, values: seq<nat>) returns (r: Option<Encoding>)
    requires IsByteString(hrp) && IsData(values)
    ensures r == None <==> forall e :: Checksum(Expand(hrp) + values) != EncodingConstant(e)
    ensures r.Some? ==> Checksum(Expand(hrp) + values) == EncodingConstant(r.value)
  {
    var x := ExpandHRP(hrp);
    ExpandIsData(hrp);
    var check := PolyMod(x + values);
    if check == EncodingConstant(BECH32) {
      return Some(BECH32);
    }
    if check == EncodingConstant(BECH32M) {
      return Some(BECH32M);
    }
    forall e ensures check != EncodingConstant(e) {
      assert e == BECH32 || e == BECH32M;
    }
    return None;
  }

  lemma LastOneUnique(s: string, p: nat, q: nat)
    requires IsLastOne(s, p) && IsLastOne(s, q)
    ensures p == q
  {
  }

  // the part of Decode behind the separator's position
  method DecodeAt(str: string, pos: nat) returns (r: Option<Decoding>)
    requires AllPrintable(str) && IsLastOne(str, pos) && pos >= 1 && pos + 7 <= |str|
    ensures r.Some? ==> exists v: seq<nat> :: DecodedWith(str, r.value, pos, v)
    ensures r.None? ==> forall d, v: seq<nat> :: !DecodedWith(str, d, pos, v)
  {
    var ok, values := ReadValues(str[pos + 1..]);
    if !ok {
      return None;
    }
    var hrp := Lowered(str[..pos]);
    var e := VerifyChecksum(hrp, values);
    if e.None? {
      forall d, v: seq<nat> ensures !DecodedWith(str, d, pos, v) {
        if AreValues(str[pos + 1..], v) { assert v == values; }
      }
      return None;
    }
    var d := Decoding(e.value, hrp, values[..|values| - 6]);
    assert DecodedWith(str, d, pos, values);
    return Some(d);
  }

  // Decode
  method Decode(str: string, extLength: bool) returns (r: Option<Decoding>)
    ensures r.Some? ==> IsDecoding(str, extLength, r.value)
    ensures r.None? ==> forall d :: !IsDecoding(str, extLength, d)
  {
    var caseOk := CheckCase(str);
    if !caseOk {
      return None;
    }
    var pos := RFind(str);
    if (|str| > 90 && !extLength) || pos == -1 || pos == 0 || pos + 7 > |str| {
      NoPosition(str, extLength, pos);
      return None;
    }
    r := DecodeAt(str, pos);
    if r.None? {
      forall d ensures !IsDecoding(str, extLength, d) {
        forall p: nat, v: seq<nat> ensures !DecodedWith(str, d, p, v) {
          if IsLastOne(str, p) { LastOneUnique(str, p, pos); }
        }
      }
    }
  }

  lemma NoPosition(str: string, extLength: bool, pos: int)
    requires -1 <= pos < |str| && (pos >= 0 ==> IsLastOne(str, pos))
    requires pos == -1 ==> forall i | 0 <= i < |str| :: str[i] != '1'
    requires (|str| > 90 && !extLength) || pos <= 0 || pos + 7 > |str|
    ensures forall d :: !IsDecoding(str, extLength, d)
  {
    forall d ensures !IsDecoding(str, extLength, d) {
      forall p: nat, v: seq<nat> ensures (|str| <= 90 || extLength) ==> !DecodedWith(str, d, p, v) {
        if pos >= 0 && IsLastOne(str, p) { LastOneUnique(str, p, pos); }
      }
    }
  }

  // ---------- round trips ----------

  lemma SymbolsPlain(v: seq<nat>)
    requires IsData(v)
    ensures AllPrintable(Symbols(v)) && NoUpper(Symbols(v)) && forall i | 0 <= i < |v| :: Symbols(v)[i] != '1'
    ensures AllValues(Symbols(v)) && AreValues(Symbols(v), v)
  {
    forall i | 0 <= i < |v|
      ensures Printable(Symbols(v)[i]) && !Upper(Symbols(v)[i]) && Symbols(v)[i] != '1' && Value(Symbols(v)[i]) == v[i]
    {
      SymbolPlain(v[i]);
      SymbolValue(v[i]);
    }
  }

  lemma LoweredSame(s: string)
    requires NoUpper(s)
    ensures Lowered(s) == s
  {
  }

  /** An encoding decodes to the parts it was made from. */
  lemma EncodingDecodes(d: Decoding, str: string, extLength: bool)
    requires IsEncoding(d, str) && d.hrp != [] && AllPrintable(d.hrp) && NoUpper(d.hrp) && (|str| <= 90 || extLength)
    ensures IsDecoding(str, extLength, d)
  {
    var cs: seq<nat> :| EncodedWith(d, cs, str);
    var v, p := d.data + cs, |d.hrp|;
    SymbolsPlain(v);
    assert str[..p] == d.hrp && str[p + 1..] == Symbols(v) && str[p] == '1';
    LoweredSame(d.hrp);
    assert v[..|v| - 6] == d.data;
    assert Expand(d.hrp) + d.data + cs == Expand(d.hrp) + v;
    PlainString(d.hrp, Symbols(v), str);
    assert DecodedWith(str, d, p, v);
  }

  lemma PlainString(hrp: string, t: string, str: string)
    requires AllPrintable(hrp) && NoUpper(hrp) && AllPrintable(t) && NoUpper(t) && str == hrp + ['1'] + t
    requires forall i | 0 <= i < |t| :: t[i] != '1'
    ensures AllPrintable(str) && NoUpper(str) && IsLastOne(str, |hrp|)
  {
  }

  lemma SameConstant(a: Encoding, b: Encoding)
    requires EncodingConstant(a) == EncodingConstant(b)
    ensures a == b
  {
    ConstantsDiffer();
  }

  /** A string decodes to at most one result. */
  lemma DecodingUnique(str: string, extLength: bool, c: Decoding, d: Decoding)
    requires IsDecoding(str, extLength, c) && IsDecoding(str, extLength, d)
    ensures c == d
  {
    var p: nat, v: seq<nat> :| DecodedWith(str, c, p, v);
    var q: nat, w: seq<nat> :| DecodedWith(str, d, q, w);
    LastOneUnique(str, p, q);
    assert v == w;
    SameConstant(c.encoding, d.encoding);
  }

  lemma ValuesSymbols(s: string, v: seq<nat>)
    requires AllValues(s) && AreValues(s, v)
    ensures IsData(v) && Symbols(v) == Lowered(s)
  {
    forall i | 0 <= i < |s| ensures v[i] < 32 && Symbol(v[i]) == LowerCase(s[i]) {
      ValueSymbol(LowerCase(s[i]));
    }
  }

  /** What a string decodes to encodes to the same string in lower case. */
  lemma DecodingEncodes(str: string, extLength: bool, d: Decoding)
    requires IsDecoding(str, extLength, d)
    ensures IsEncoding(d, Lowered(str))
  {
    var p: nat, v: seq<nat> :| DecodedWith(str, d, p, v);
    var cs := v[|v| - 6..];
    ValuesSymbols(str[p + 1..], v);
    SplitPayload(Expand(d.hrp), v);
    LoweredSplit(str, p);
    assert EncodedWith(d, cs, Lowered(str));
  }

  lemma SplitPayload(x: seq<nat>, v: seq<nat>)
    requires |v| >= 6
    ensures v[..|v| - 6] + v[|v| - 6..] == v && x + v[..|v| - 6] + v[|v| - 6..] == x + v
  {
  }

  lemma LoweredSplit(str: string, p: nat)
    requires p < |str| && str[p] == '1'
    ensures Lowered(str) == Lowered(str[..p]) + ['1'] + Lowered(str[p + 1..])
  {
  }

  /** There is one encoding of given parts. */
  lemma EncodingUnique(d: Decoding, s: string, t: string)
    requires IsEncoding(d, s) && IsEncoding(d, t)
    ensures s == t
  {
    var a: seq<nat> :| EncodedWith(d, a, s);
    var b: seq<nat> :| EncodedWith(d, b, t);
    ChecksumUnique(Expand(d.hrp) + d.data, a, b);
  }

  /** Encode, then decode. */
  method RoundTrip(d: Decoding, extLength: bool) returns (r: Option<Decoding>)
    requires IsData(d.data) && d.hrp != [] && AllPrintable(d.hrp) && NoUpper(d.hrp)
    requires extLength || |d.hrp| + |d.data| + 7 <= 90
    ensures r == Some(d)
  {
    var str := Encode(d);
    EncodingDecodes(d, str, extLength);
    r := Decode(str, extLength);
    DecodingUnique(str, extLength, r.value, d);
  }

  /** Two data parts of one length that differ in one value never both verify as the same encoding. */
  lemma OneChangeDetected(hrp: string, v: seq<nat>, w: seq<nat>, i: nat, e: Encoding)
    requires AllPrintable(hrp) && IsData(v) && IsData(w) && 6 <= |v| == |w| && i < |v|
    requires v[i] != w[i] && forall k | 0 <= k < |v| && k != i :: v[k] == w[k]
    requires Checksum(Expand(hrp) + v) == EncodingConstant(e)
    ensures Checksum(Expand(hrp) + w) != EncodingConstant(e)
  {
    var x, y := Expand(hrp) + v, Expand(hrp) + w;
    var at := |Expand(hrp)| + i;
    ExpandIsData(hrp);
    assert x[at] != y[at];
    if Checksum(y) == EncodingConstant(e) {
      BurstDetected(x, y, if i + 6 <= |v| then at else |x| - 6);
      assert false;
    }
  }
}
