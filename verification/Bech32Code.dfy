/** Bech32 detects any three changed values within 1023 places (src/bech32.cpp, the remarks at PolyMod): three roots of
    the generator, in the field with 1024 elements, are in the ratio of an element of order 1023. */
module Bech32Code {
  import opened Bech32
  import opened Bech32Field
  import opened Fields
  import opened Bech32Pairs

  // ---------- the field with 32 elements, by its bits ----------

  function BitsOf(x: B): (r: Bits)
    ensures |r| == 5
  {
    [x.b0, x.b1, x.b2, x.b3, x.b4]
  }

  function Element(x: Bits): B {
    if |x| == 5 then B(x[0], x[1], x[2], x[3], x[4]) else N0
  }

  lemma ElementOf(x: B)
    ensures Element(BitsOf(x)) == x
  {
  }

  lemma BitsOfElement(x: Bits)
    requires |x| == 5
    ensures BitsOf(Element(x)) == x
  {
  }

  lemma ElementXor(x: Bits, y: Bits)
    requires |x| == |y| == 5
    ensures Element(Xor(x, y)) == AddB(Element(x), Element(y))
  {
  }

  lemma ElementTimes(x: Bits, y: Bits)
    requires |x| == |y| == 5
    ensures Element(Times(x, y)) == MulB(Element(x), Element(y))
  {
    Multiples(y);
  }

  const BASE: Field<B> := Field(N0, N1, (x, y) => AddB(x, y), (x, y) => MulB(x, y))

  lemma MulCommutes(x: B, y: B)
    ensures MulB(x, y) == MulB(y, x)
  {
    ElementOf(x);
    ElementOf(y);
    ElementTimes(BitsOf(x), BitsOf(y));
    ElementTimes(BitsOf(y), BitsOf(x));
    TimesCommutes(BitsOf(x), BitsOf(y));
  }

  lemma MulAssociates(x: B, y: B, z: B)
    ensures MulB(MulB(x, y), z) == MulB(x, MulB(y, z))
  {
    var a, b, c := BitsOf(x), BitsOf(y), BitsOf(z);
    ElementOf(x);
    ElementOf(y);
    ElementOf(z);
    ElementTimes(a, b);
    ElementTimes(b, c);
    ElementTimes(Times(a, b), c);
    ElementTimes(a, Times(b, c));
    TimesAssociates(a, b, c);
  }

  lemma MulDistributes(x: B, y: B, z: B)
    ensures MulB(AddB(x, y), z) == AddB(MulB(x, z), MulB(y, z))
  {
    var a, b, c := BitsOf(x), BitsOf(y), BitsOf(z);
    ElementOf(x);
    ElementOf(y);
    ElementOf(z);
    ElementXor(a, b);
    ElementTimes(a, c);
    ElementTimes(b, c);
    ElementTimes(Xor(a, b), c);
    ElementXor(Times(a, c), Times(b, c));
    TimesDistributes(a, b, c);
  }

  lemma MulNoDivisors(x: B, y: B)
    requires MulB(x, y) == N0
    ensures x == N0 || y == N0
  {
  }

  lemma BaseIsField()
    ensures IsField(BASE)
  {
    forall x: B, y: B, z: B ensures SumLaws(BASE, x, y, z) {
    }
    forall x: B, y: B, z: B ensures MulLaws(BASE, x, y, z) {
      MulCommutes(x, y);
      MulAssociates(x, y, z);
      MulDistributes(x, y, z);
      if MulB(x, y) == N0 { MulNoDivisors(x, y); }
    }
  }

  /** x * x + x + 1 has no root there. */
  lemma NormNonzero(u: B, v: B)
    requires AddB(AddB(MulB(u, u), MulB(u, v)), MulB(v, v)) == N0
    ensures u == N0 && v == N0
  {
  }

  lemma PairsRepresent()
    ensures Represents(Extension(BASE))
  {
    BaseIsField();
    forall a: Pair<B> ensures Norm(BASE, a) == BASE.zero ==> a == Pair(BASE.zero, BASE.zero) {
      if Norm(BASE, a) == BASE.zero { NormNonzero(a.u, a.v); }
    }
    ExtensionIsField(BASE);
  }

  // ---------- the register at a root ----------

  /** The field f holds the field with 32 elements. */
  ghost predicate Holds<T(!new)>(f: Field<T>, em: Bits -> T) {
    && IsField(f)
    && em(Zeros(5)) == f.zero
    && (forall x: Bits, y: Bits :: |x| == 5 && |y| == 5 ==> HoldsAt(f, em, x, y))
    && (forall x: Bits :: |x| == 5 && em(x) == f.zero ==> x == Zeros(5))
  }

  ghost predicate HoldsAt<T(!new)>(f: Field<T>, em: Bits -> T, x: Bits, y: Bits)
    requires |x| == |y| == 5
  {
    f.sum(em(x), em(y)) == em(Xor(x, y)) && f.mul(em(x), em(y)) == em(Times(x, y))
  }

  ghost function Coefficients<T>(em: Bits -> T): (s: seq<T>)
    ensures |s| == 7 && forall i :: 0 <= i < 7 ==> s[i] == em(G(i))
  {
    seq(7, i requires 0 <= i < 7 => em(G(i)))
  }

  ghost function Register<T>(em: Bits -> T, c: Bits): (s: seq<T>)
    requires |c| == SIZE
    ensures |s| == 6 && forall i :: 0 <= i < 6 ==> s[i] == em(Group(c, 5 - i))
  {
    seq(6, i requires 0 <= i < 6 => em(Group(c, 5 - i)))
  }

  ghost function Values<T>(em: Bits -> T, w: seq<Bits>): (s: seq<T>)
    ensures |s| == |w| && forall i :: 0 <= i < |w| ==> s[i] == em(w[i])
  {
    seq(|w|, i requires 0 <= i < |w| => em(w[i]))
  }

  ghost function Taken<T>(f: Field<T>, em: Bits -> T, c: Bits): (s: seq<T>)
    requires |c| == SIZE
    ensures |s| == 7 && forall i :: 0 <= i < 7 ==> s[i] == f.mul(em(Group(c, 5)), em(G(i)))
  {
    seq(7, i requires 0 <= i < 7 => f.mul(em(Group(c, 5)), em(G(i))))
  }

  /** The coefficient that overflows is taken out. */
  lemma OverflowGone<T(!new)>(f: Field<T>, em: Bits -> T, c: Bits)
    requires Holds(f, em) && |c| == SIZE
    ensures f.sum(em(Group(c, 5)), f.mul(em(Group(c, 5)), em(G(0)))) == f.zero
  {
    var t := Group(c, 5);
    assert HoldsAt(f, em, t, G(0));
    TimesCommutes(t, G(0));
    TimesOne(t);
    assert SumLaws(f, em(t), em(t), em(t));
  }

  lemma StepAsSum<T(!new)>(f: Field<T>, em: Bits -> T, c: Bits, v: Bits)
    requires Holds(f, em) && |c| == SIZE && |v| == 5
    ensures IsSum(f, Register(em, c) + [em(v)], Taken(f, em, c), [f.zero] + Register(em, Step(c, v)))
  {
    var l, m, s := Register(em, c) + [em(v)], Taken(f, em, c), [f.zero] + Register(em, Step(c, v));
    OverflowGone(f, em, c);
    forall i | 1 <= i < 7 ensures s[i] == f.sum(l[i], m[i]) {
      StepSumAt(f, em, c, v, i);
    }
  }

  lemma StepSumAt<T(!new)>(f: Field<T>, em: Bits -> T, c: Bits, v: Bits, i: nat)
    requires Holds(f, em) && |c| == SIZE && |v| == 5 && 1 <= i < 7
    ensures em(Group(Step(c, v), 6 - i)) == f.sum(em(if i == 6 then v else Group(c, 5 - i)), f.mul(em(Group(c, 5)), em(G(i))))
  {
    var x := if i == 6 then v else Group(c, 5 - i);
    StepIsReduction(c, v, 6 - i);
    assert HoldsAt(f, em, Group(c, 5), G(i));
    assert HoldsAt(f, em, x, Times(Group(c, 5), G(i)));
  }

  /** At a root of the generator a step is Horner's. */
  lemma StepAtRoot<T(!new)>(f: Field<T>, em: Bits -> T, c: Bits, v: Bits, r: T)
    requires Holds(f, em) && |c| == SIZE && |v| == 5 && Ev(f, Coefficients(em), r) == f.zero
    ensures Ev(f, Register(em, Step(c, v)), r) == f.sum(f.mul(r, Ev(f, Register(em, c), r)), em(v))
  {
    var l, m, s := Register(em, c) + [em(v)], Taken(f, em, c), [f.zero] + Register(em, Step(c, v));
    StepAsSum(f, em, c, v);
    EvSum(f, l, m, s, r);
    EvMultiple(f, em(Group(c, 5)), Coefficients(em), m, r);
    ZeroTimes(f, em(Group(c, 5)));
    assert SumLaws(f, Ev(f, l, r), f.zero, f.zero);
    EvLeadingZero(f, Register(em, Step(c, v)), s, r);
    assert l[..6] == Register(em, c);
  }

  /** So the register and the values read have one value at every root. */
  lemma {:induction false} RunAtRoot<T(!new)>(f: Field<T>, em: Bits -> T, w: seq<Bits>, r: T)
    requires Holds(f, em) && Groups(w) && Ev(f, Coefficients(em), r) == f.zero
    ensures Ev(f, Register(em, Run(Zeros(SIZE), w)), r) == Ev(f, Values(em, w), r)
    decreases |w|
  {
    if w == [] {
      ZeroRegister(f, em, r);
    } else {
      var n := |w| - 1;
      RunAtRoot(f, em, w[..n], r);
      StepAtRoot(f, em, Run(Zeros(SIZE), w[..n]), w[n], r);
      assert Values(em, w)[..n] == Values(em, w[..n]);
    }
  }

  lemma ZeroRegister<T(!new)>(f: Field<T>, em: Bits -> T, r: T)
    requires Holds(f, em)
    ensures Ev(f, Register(em, Zeros(SIZE)), r) == f.zero
  {
    forall i | 0 <= i < 6 ensures Register(em, Zeros(SIZE))[i] == f.zero {
      assert Group(Zeros(SIZE), 5 - i) == Zeros(5);
    }
    EvNothing(f, Register(em, Zeros(SIZE)), r);
  }

  lemma LeavesNothing<T(!new)>(f: Field<T>, em: Bits -> T, w: seq<Bits>, r: T)
    requires Holds(f, em) && Groups(w) && Run(Zeros(SIZE), w) == Zeros(SIZE) && Ev(f, Coefficients(em), r) == f.zero
    ensures Ev(f, Values(em, w), r) == f.zero
  {
    RunAtRoot(f, em, w, r);
    ZeroRegister(f, em, r);
  }

  // ---------- three changes ----------

  function Embedded(x: Bits): KB {
    Pair(Element(x), N0)
  }

  lemma EmbeddedSum(x: Bits, y: Bits)
    requires |x| == |y| == 5
    ensures AddK(Embedded(x), Embedded(y)) == Embedded(Xor(x, y))
  {
    ElementXor(x, y);
  }

  lemma EmbeddedProduct(x: Bits, y: Bits)
    requires |x| == |y| == 5
    ensures MulK(Embedded(x), Embedded(y)) == Embedded(Times(x, y))
  {
    ElementTimes(x, y);
  }

  lemma EmbeddedHolds(f: Field<KB>)
    requires Represents(f)
    ensures Holds(f, Embedded)
  {
    forall x: Bits, y: Bits | |x| == 5 && |y| == 5 ensures HoldsAt(f, Embedded, x, y) {
      EmbeddedSum(x, y);
      EmbeddedProduct(x, y);
    }
    forall x: Bits | |x| == 5 && Embedded(x) == f.zero ensures x == Zeros(5) {
      BitsOfElement(x);
    }
  }

  lemma SameCoefficients()
    ensures Coefficients(Embedded) == Images(7)
  {
    forall i | 0 <= i < 7 ensures Embedded(G(i)) == GeneratorAt(i) {
    }
  }

  ghost predicate ThreeAlone(w: seq<Bits>, i: nat, j: nat, k: nat) {
    && Groups(w)
    && i < j < k < |w|
    && forall n :: 0 <= n < |w| && n != i && n != j && n != k ==> w[n] == Zeros(5)
  }

  /** The three roots that ThreeRoots gives, in any field that holds the 32 elements. */
  ghost predicate Detects<T(!new)>(f: Field<T>, em: Bits -> T, r: T, a: T) {
    && Holds(f, em)
    && r != f.zero
    && a != f.zero
    && Ev(f, Coefficients(em), r) == f.zero
    && Ev(f, Coefficients(em), f.mul(r, a)) == f.zero
    && Ev(f, Coefficients(em), f.mul(f.mul(r, a), a)) == f.zero
    && (forall d :: 0 < d < 1023 ==> Pow(f, a, d) != f.one)
  }

  lemma ThreeSeen<T(!new)>(f: Field<T>, em: Bits -> T, r: T, a: T, w: seq<Bits>, i: nat, j: nat, k: nat)
    requires Detects(f, em, r, a) && ThreeAlone(w, i, j, k) && k - i < 1023 && Run(Zeros(SIZE), w) == Zeros(SIZE)
    ensures w[i] == Zeros(5) && w[j] == Zeros(5) && w[k] == Zeros(5)
  {
    LeavesNothing(f, em, w, r);
    LeavesNothing(f, em, w, f.mul(r, a));
    LeavesNothing(f, em, w, f.mul(f.mul(r, a), a));
    ThreePlacesEmpty(f, Values(em, w), i, j, k, r, a);
  }

  lemma PairsDetect() returns (f: Field<KB>, r: KB)
    ensures Detects(f, Embedded, r, ALPHA)
  {
    f := Extension(BASE);
    PairsRepresent();
    EmbeddedHolds(f);
    SameCoefficients();
    r := ThreeRoots(f);
    forall d | 0 < d < 1023 ensures Pow(f, ALPHA, d) != f.one {
      NoSmallerPower(f, d);
    }
  }

  /** Nothing is left of groups that are zero but at three places within 1023 only if they are zero there too. */
  lemma ThreeGroups(w: seq<Bits>, i: nat, j: nat, k: nat)
    requires ThreeAlone(w, i, j, k) && k - i < 1023 && Run(Zeros(SIZE), w) == Zeros(SIZE)
    ensures w[i] == Zeros(5) && w[j] == Zeros(5) && w[k] == Zeros(5)
  {
    var f, r := PairsDetect();
    ThreeSeen(f, Embedded, r, ALPHA, w, i, j, k);
  }

  /** Values that differ in at most three places within 1023 have different checksums. */
  lemma ThreeChangesDetected(x: seq<nat>, y: seq<nat>, i: nat, j: nat, k: nat)
    requires IsData(x) && IsData(y) && |x| == |y| && i < j < k < |x| && k - i < 1023
    requires forall n :: 0 <= n < |x| && n != i && n != j && n != k ==> x[n] == y[n]
    requires Checksum(x) == Checksum(y)
    ensures x == y
  {
    var a, b := ToGroups(x), ToGroups(y);
    var w := Difference(a, b);
    NoTrace(x, y);
    forall n | 0 <= n < |x| && n != i && n != j && n != k ensures w[n] == Zeros(5) {
      XorZeros(a[n]);
    }
    ThreeGroups(w, i, j, k);
    forall n | 0 <= n < |x| ensures a[n] == b[n] {
      XorCancels(a[n], b[n]);
      XorZeros(a[n]);
    }
    ToGroupsInjective(x, y);
  }

  lemma SymbolsDiffer(v: seq<nat>, u: seq<nat>, n: nat)
    requires IsData(v) && IsData(u) && n < |v| == |u| && Symbols(v)[n] == Symbols(u)[n]
    ensures v[n] == u[n]
  {
    SymbolValue(v[n]);
    SymbolValue(u[n]);
  }

  /** Outside the changed characters the values of two strings with one human-readable part are the same. */
  lemma SameValues(hrp: string, v: seq<nat>, u: seq<nat>, n: nat)
    requires IsData(v) && IsData(u) && |v| == |u| && |hrp| <= n < 2 * |hrp| + 1 + |v|
    requires (hrp + ['1'] + Symbols(v))[n - |hrp|] == (hrp + ['1'] + Symbols(u))[n - |hrp|]
    ensures (Expand(hrp) + v)[n] == (Expand(hrp) + u)[n]
  {
    if n >= 2 * |hrp| + 1 { SymbolsDiffer(v, u, n - 2 * |hrp| - 1); }
  }

  ghost predicate ApartInThree(s: string, t: string, i: nat, j: nat, k: nat) {
    |s| == |t| && i < j < k < |s| && forall n :: 0 <= n < |s| && n != i && n != j && n != k ==> s[n] == t[n]
  }

  lemma ThreeSymbols(hrp: string, v: seq<nat>, u: seq<nat>, i: nat, j: nat, k: nat)
    requires IsByteString(hrp) && IsData(v) && IsData(u) && Checksum(Expand(hrp) + v) == Checksum(Expand(hrp) + u)
    requires ApartInThree(hrp + ['1'] + Symbols(v), hrp + ['1'] + Symbols(u), i, j, k) && k - i < 1023
    ensures v == u
  {
    var x, y, m := Expand(hrp) + v, Expand(hrp) + u, |hrp|;
    ExpandIsData(hrp);
    forall n | 0 <= n < |x| && n != i + m && n != j + m && n != k + m ensures x[n] == y[n] {
      if n >= m { SameValues(hrp, v, u, n); }
    }
    ThreeChangesDetected(x, y, i + m, j + m, k + m);
    assert v == x[2 * m + 1..] && u == y[2 * m + 1..];
  }

  /** Of two strings with one human-readable part that differ in up to three characters within 1023, only one is an
      encoding. */
  lemma ThreeCharactersDetected(c: Decoding, d: Decoding, s: string, t: string, i: nat, j: nat, k: nat)
    requires IsEncoding(c, s) && IsEncoding(d, t) && c.hrp == d.hrp && c.encoding == d.encoding && IsByteString(c.hrp)
    requires ApartInThree(s, t, i, j, k) && k - i < 1023
    ensures s == t && c == d
  {
    var a: seq<nat> :| EncodedWith(c, a, s);
    var b: seq<nat> :| EncodedWith(d, b, t);
    var v, u := c.data + a, d.data + b;
    assert Expand(c.hrp) + v == Expand(c.hrp) + c.data + a && Expand(d.hrp) + u == Expand(d.hrp) + d.data + b;
    ThreeSymbols(c.hrp, v, u, i, j, k);
    assert c.data == v[..|v| - 6] && d.data == u[..|u| - 6];
  }

  /** So such a change to a string that decodes is never taken for the same encoding of something else. */
  lemma ThreeCharactersRefused(c: Decoding, d: Decoding, s: string, t: string, extLength: bool, i: nat, j: nat, k: nat)
    requires IsDecoding(s, extLength, c) && IsDecoding(t, extLength, d) && c.hrp == d.hrp && c.encoding == d.encoding
    requires ApartInThree(Lowered(s), Lowered(t), i, j, k) && k - i < 1023
    ensures c == d
  {
    DecodingEncodes(s, extLength, c);
    DecodingEncodes(t, extLength, d);
    PartIsBytes(s, extLength, c);
    ThreeCharactersDetected(c, d, Lowered(s), Lowered(t), i, j, k);
  }

  lemma PartIsBytes(s: string, extLength: bool, c: Decoding)
    requires IsDecoding(s, extLength, c)
    ensures IsByteString(c.hrp)
  {
    var p: nat, v: seq<nat> :| DecodedWith(s, c, p, v);
    forall n | 0 <= n < p ensures Code(LowerCase(s[n])) < 256 {
      assert Printable(s[n]);
    }
  }
}
