/** Computing in the field with 1024 elements, as pairs of field elements given by their bits: three roots of the
    generator of the Bech32 checksum (src/bech32.cpp:42-99), in the ratio of an element whose 1023 powers differ. */
module Bech32Pairs {
  import opened Fields

  datatype B = B(b0: bool, b1: bool, b2: bool, b3: bool, b4: bool)

  type KB = Pair<B>

  // the elements by the number their bits write
  const N0 := B(false, false, false, false, false)
  const N1 := B(true, false, false, false, false)
  const N2 := B(false, true, false, false, false)
  const N3 := B(true, true, false, false, false)
  const N6 := B(false, true, true, false, false)
  const N7 := B(true, true, true, false, false)
  const N8 := B(false, false, false, true, false)
  const N9 := B(true, false, false, true, false)
  const N10 := B(false, true, false, true, false)
  const N11 := B(true, true, false, true, false)
  const N12 := B(false, false, true, true, false)
  const N13 := B(true, false, true, true, false)
  const N14 := B(false, true, true, true, false)
  const N15 := B(true, true, true, true, false)
  const N17 := B(true, false, false, false, true)
  const N18 := B(false, true, false, false, true)
  const N19 := B(true, true, false, false, true)
  const N20 := B(false, false, true, false, true)
  const N21 := B(true, false, true, false, true)
  const N22 := B(false, true, true, false, true)
  const N23 := B(true, true, true, false, true)
  const N24 := B(false, false, false, true, true)
  const N25 := B(true, false, false, true, true)
  const N27 := B(true, true, false, true, true)
  const N28 := B(false, false, true, true, true)
  const N29 := B(true, false, true, true, true)
  const N30 := B(false, true, true, true, true)
  const N31 := B(true, true, true, true, true)

  function AddB(x: B, y: B): B {
    B(x.b0 != y.b0, x.b1 != y.b1, x.b2 != y.b2, x.b3 != y.b3, x.b4 != y.b4)
  }

  function MulB(x: B, y: B): B {
    B((x.b0 && y.b0) != ((x.b1 && y.b4) != ((x.b2 && y.b3) != ((x.b3 && (y.b2 != y.b4)) != (x.b4 && (y.b1 != y.b3))))),
      (x.b0 && y.b1) != ((x.b1 && y.b0) != ((x.b2 && y.b4) != ((x.b3 && y.b3) != (x.b4 && (y.b2 != y.b4))))),
      (x.b0 && y.b2) != ((x.b1 && y.b1) != ((x.b2 && y.b0) != ((x.b3 && y.b4) != (x.b4 && y.b3)))),
      (x.b0 && y.b3) != ((x.b1 && (y.b2 != y.b4)) != ((x.b2 && (y.b1 != y.b3)) != ((x.b3 && (y.b0 != (y.b2 != y.b4))) != (x.b4 && (y.b4 != (y.b1 != y.b3)))))),
      (x.b0 && y.b4) != ((x.b1 && y.b3) != ((x.b2 && (y.b2 != y.b4)) != ((x.b3 && (y.b1 != y.b3)) != (x.b4 && (y.b0 != (y.b2 != y.b4)))))))
  }

  function AddK(x: KB, y: KB): KB {
    Pair(AddB(x.u, y.u), AddB(x.v, y.v))
  }

  function MulK(x: KB, y: KB): KB {
    Pair(AddB(MulB(x.u, y.u), MulB(x.v, y.v)), AddB(AddB(MulB(x.u, y.v), MulB(x.v, y.u)), MulB(x.v, y.v)))
  }

  /** The field f computes as the pairs do. */
  ghost predicate Represents(f: Field<KB>) {
    && IsField(f)
    && f.zero == Pair(N0, N0)
    && f.one == Pair(N1, N0)
    && (forall x: KB, y: KB :: f.mul(x, y) == MulK(x, y))
    && (forall x: KB, y: KB :: f.sum(x, y) == AddK(x, y))
  }

  // ---------- powers of one element ----------

  const ALPHA := Pair(N1, N6)

  ghost predicate IsPower(f: Field<KB>, n: nat, x: KB) {
    Pow(f, ALPHA, n) == x
  }

  lemma PowerNext(f: Field<KB>, m: nat, x: KB, n: nat, y: KB, z: KB)
    requires Represents(f) && IsPower(f, m, x) && IsPower(f, n, y) && MulK(x, y) == z
    ensures IsPower(f, m + n, z)
  {
    PowAdd(f, ALPHA, m, n);
  }

  lemma FirstPower(f: Field<KB>)
    requires Represents(f)
    ensures IsPower(f, 1, Pair(N1, N6))
  {
    assert Pow(f, ALPHA, 1) == f.mul(ALPHA, Pow(f, ALPHA, 0));
    assert MulLaws(f, ALPHA, f.one, f.one);
    assert MulLaws(f, f.one, ALPHA, f.one);
  }

  lemma PowersTo8(f: Field<KB>)
    requires Represents(f)
    ensures IsPower(f, 3, Pair(N22, N18))
    ensures IsPower(f, 4, Pair(N1, N10))
    ensures IsPower(f, 8, Pair(N23, N22))
  {
    FirstPower(f);
    PowerNext(f, 1, Pair(N1, N6), 1, Pair(N1, N6), Pair(N21, N20));
    PowerNext(f, 2, Pair(N21, N20), 1, Pair(N1, N6), Pair(N22, N18));
    PowerNext(f, 2, Pair(N21, N20), 2, Pair(N21, N20), Pair(N1, N10));
    PowerNext(f, 4, Pair(N1, N10), 4, Pair(N1, N10), Pair(N23, N22));
  }

  lemma PowersTo33(f: Field<KB>)
    requires Represents(f)
    ensures IsPower(f, 33, Pair(N19, N0))
  {
    PowersTo8(f);
    PowerNext(f, 8, Pair(N23, N22), 3, Pair(N22, N18), Pair(N28, N28));
    PowerNext(f, 11, Pair(N28, N28), 11, Pair(N28, N28), Pair(N0, N24));
    PowerNext(f, 22, Pair(N0, N24), 11, Pair(N28, N28), Pair(N19, N0));
  }

  lemma PowersTo31(f: Field<KB>)
    requires Represents(f)
    ensures IsPower(f, 31, Pair(N23, N31))
  {
    PowersTo8(f);
    PowerNext(f, 8, Pair(N23, N22), 8, Pair(N23, N22), Pair(N1, N14));
    PowerNext(f, 16, Pair(N1, N14), 8, Pair(N23, N22), Pair(N12, N24));
    PowerNext(f, 24, Pair(N12, N24), 4, Pair(N1, N10), Pair(N10, N29));
    PowerNext(f, 28, Pair(N10, N29), 3, Pair(N22, N18), Pair(N23, N31));
  }

  lemma PowersTo93(f: Field<KB>)
    requires Represents(f)
    ensures IsPower(f, 62, Pair(N18, N29))
    ensures IsPower(f, 93, Pair(N28, N21))
  {
    PowersTo31(f);
    PowerNext(f, 31, Pair(N23, N31), 31, Pair(N23, N31), Pair(N18, N29));
    PowerNext(f, 62, Pair(N18, N29), 31, Pair(N23, N31), Pair(N28, N21));
  }

  lemma PowersTo341(f: Field<KB>)
    requires Represents(f)
    ensures IsPower(f, 341, Pair(N1, N1))
  {
    PowersTo93(f);
    PowerNext(f, 62, Pair(N18, N29), 62, Pair(N18, N29), Pair(N7, N25));
    PowerNext(f, 124, Pair(N7, N25), 124, Pair(N7, N25), Pair(N28, N9));
    PowerNext(f, 248, Pair(N28, N9), 93, Pair(N28, N21), Pair(N1, N1));
  }

  lemma PowersTo1023(f: Field<KB>)
    requires Represents(f)
    ensures IsPower(f, 1023, Pair(N1, N0))
  {
    PowersTo341(f);
    PowerNext(f, 341, Pair(N1, N1), 341, Pair(N1, N1), Pair(N0, N1));
    PowerNext(f, 682, Pair(N0, N1), 341, Pair(N1, N1), Pair(N1, N0));
  }

  lemma DivisorIs(q: nat)
    requires 0 < q <= 31 && 1023 % q == 0
    ensures q == 1 || q == 3 || q == 11 || q == 31
  {
    assert 1023 % 2 != 0 && 1023 % 4 != 0 && 1023 % 5 != 0 && 1023 % 6 != 0 && 1023 % 7 != 0 && 1023 % 8 != 0 && 1023 % 9 != 0;
    assert 1023 % 10 != 0 && 1023 % 12 != 0 && 1023 % 13 != 0 && 1023 % 14 != 0 && 1023 % 15 != 0 && 1023 % 16 != 0 && 1023 % 17 != 0;
    assert 1023 % 18 != 0 && 1023 % 19 != 0 && 1023 % 20 != 0 && 1023 % 21 != 0 && 1023 % 22 != 0 && 1023 % 23 != 0 && 1023 % 24 != 0;
    assert 1023 % 25 != 0 && 1023 % 26 != 0 && 1023 % 27 != 0 && 1023 % 28 != 0 && 1023 % 29 != 0 && 1023 % 30 != 0;
    assert q == 1 || q == 2 || q == 3 || q == 4 || q == 5 || q == 6 || q == 7 || q == 8 || q == 9 || q == 10 || q == 11 || q == 12 || q == 13 || q == 14 || q == 15 || q == 16
        || q == 17 || q == 18 || q == 19 || q == 20 || q == 21 || q == 22 || q == 23 || q == 24 || q == 25 || q == 26 || q == 27 || q == 28 || q == 29 || q == 30 || q == 31;
  }

  lemma Factor(q: nat, g: nat)
    requires q * g == 1023
    ensures q > 0 && 1023 % q == 0
  {
    assert q > 0;
    assert 1023 == q * g + 0;
    assert (q * g) % q == 0;
  }

  lemma Grows(q: nat, g: nat)
    requires q > 31 && g > 31
    ensures q * g >= 1024
  {
    assert q * g == (q - 32) * g + 32 * g;
  }

  lemma OtherSide(q: nat, g: nat)
    requires q * g == 1023 && q > 31
    ensures g <= 31
  {
    if g > 31 {
      Grows(q, g);
      assert false;
    }
  }

  /** A divisor of 1023 below it divides 33, 93 or 341. */
  lemma Divisors(q: nat, g: nat) returns (k: nat)
    requires q * g == 1023 && g < 1023
    ensures k * g == 33 || k * g == 93 || k * g == 341
  {
    Factor(q, g);
    Factor(g, q);
    if q <= 31 {
      DivisorIs(q);
      k := 1;
    } else {
      OtherSide(q, g);
      DivisorIs(g);
      k := if g == 31 then 3 else 33 / g;
    }
  }

  /** Its powers below the 1023rd differ from one. */
  lemma NoSmallerPower(f: Field<KB>, d: nat)
    requires Represents(f) && 0 < d < 1023
    ensures Pow(f, ALPHA, d) != f.one
  {
    PowersTo33(f);
    PowersTo93(f);
    PowersTo341(f);
    PowersTo1023(f);
    if Pow(f, ALPHA, d) == f.one {
      var g := Gcd(d, 1023);
      OneAtGcd(f, ALPHA, d, 1023);
      var _, q := GcdDivides(d, 1023);
      var k := Divisors(q, g);
      OneAtMultiples(f, ALPHA, g, k);
      assert false;
    }
  }

  // ---------- roots of the generator ----------

  /** The coefficients of the generator, the highest first. */
  function GeneratorAt(n: nat): KB {
    if n == 0 then Pair(N1, N0) else if n == 1 then Pair(N29, N0) else if n == 2 then Pair(N22, N0)
    else if n == 3 then Pair(N20, N0) else if n == 4 then Pair(N21, N0) else if n == 5 then Pair(N29, N0) else Pair(N18, N0)
  }

  ghost function Images(n: nat): (s: seq<KB>)
    ensures |s| == n && forall i :: 0 <= i < n ==> s[i] == GeneratorAt(i)
  {
    seq(n, i requires 0 <= i => GeneratorAt(i))
  }

  ghost predicate Reaches(f: Field<KB>, r: KB, n: nat, x: KB) {
    Ev(f, Images(n), r) == x
  }

  lemma EvNext(f: Field<KB>, r: KB, n: nat)
    ensures Ev(f, Images(n + 1), r) == f.sum(f.mul(r, Ev(f, Images(n), r)), GeneratorAt(n))
  {
    assert Images(n + 1)[..n] == Images(n);
  }

  lemma ReachesNext(f: Field<KB>, r: KB, n: nat, x: KB, z: KB)
    requires Represents(f) && Reaches(f, r, n, x) && AddK(MulK(r, x), GeneratorAt(n)) == z
    ensures Reaches(f, r, n + 1, z)
  {
    EvNext(f, r, n);
  }

  lemma Root1(f: Field<KB>)
    requires Represents(f)
    ensures Reaches(f, Pair(N12, N24), 7, Pair(N0, N0))
  {
    var r := Pair(N12, N24);
    assert Reaches(f, r, 0, Pair(N0, N0));
    ReachesNext(f, r, 0, Pair(N0, N0), Pair(N1, N0));
    ReachesNext(f, r, 1, Pair(N1, N0), Pair(N17, N24));
    ReachesNext(f, r, 2, Pair(N17, N24), Pair(N13, N3));
    ReachesNext(f, r, 3, Pair(N13, N3), Pair(N27, N9));
    ReachesNext(f, r, 4, Pair(N27, N9), Pair(N2, N25));
    ReachesNext(f, r, 5, Pair(N2, N25), Pair(N21, N1));
    ReachesNext(f, r, 6, Pair(N21, N1), Pair(N0, N0));
  }

  lemma Root2(f: Field<KB>)
    requires Represents(f)
    ensures Reaches(f, Pair(N14, N27), 7, Pair(N0, N0))
  {
    var r := Pair(N14, N27);
    assert Reaches(f, r, 0, Pair(N0, N0));
    ReachesNext(f, r, 0, Pair(N0, N0), Pair(N1, N0));
    ReachesNext(f, r, 1, Pair(N1, N0), Pair(N19, N27));
    ReachesNext(f, r, 2, Pair(N19, N27), Pair(N31, N8));
    ReachesNext(f, r, 3, Pair(N31, N8), Pair(N13, N22));
    ReachesNext(f, r, 4, Pair(N13, N22), Pair(N7, N22));
    ReachesNext(f, r, 5, Pair(N7, N22), Pair(N24, N14));
    ReachesNext(f, r, 6, Pair(N24, N14), Pair(N0, N0));
  }

  lemma Root3(f: Field<KB>)
    requires Represents(f)
    ensures Reaches(f, Pair(N6, N30), 7, Pair(N0, N0))
  {
    var r := Pair(N6, N30);
    assert Reaches(f, r, 0, Pair(N0, N0));
    ReachesNext(f, r, 0, Pair(N0, N0), Pair(N1, N0));
    ReachesNext(f, r, 1, Pair(N1, N0), Pair(N27, N30));
    ReachesNext(f, r, 2, Pair(N27, N30), Pair(N2, N11));
    ReachesNext(f, r, 3, Pair(N2, N11), Pair(N21, N11));
    ReachesNext(f, r, 4, Pair(N21, N11), Pair(N29, N15));
    ReachesNext(f, r, 5, Pair(N29, N15), Pair(N15, N18));
    ReachesNext(f, r, 6, Pair(N15, N18), Pair(N0, N0));
  }

  /** Three roots, each the one before times ALPHA. */
  lemma ThreeRoots(f: Field<KB>) returns (r: KB)
    requires Represents(f)
    ensures r != f.zero
    ensures Ev(f, Images(7), r) == f.zero
    ensures Ev(f, Images(7), f.mul(r, ALPHA)) == f.zero
    ensures Ev(f, Images(7), f.mul(f.mul(r, ALPHA), ALPHA)) == f.zero
  {
    Root1(f);
    Root2(f);
    Root3(f);
    r := Pair(N12, N24);
    assert MulK(Pair(N12, N24), ALPHA) == Pair(N14, N27);
    assert MulK(Pair(N14, N27), ALPHA) == Pair(N6, N30);
  }
}
