/** Fields in which every element is its own negative: powers, polynomials by Horner's rule, and when a sum of powers
    vanishes. */
module Fields {
  datatype Field<!T> = Field(zero: T, one: T, sum: (T, T) -> T, mul: (T, T) -> T)

  ghost predicate SumLaws<T(!new)>(f: Field<T>, a: T, b: T, c: T) {
    f.sum(a, b) == f.sum(b, a) && f.sum(f.sum(a, b), c) == f.sum(a, f.sum(b, c)) && f.sum(a, f.zero) == a
    && f.sum(a, a) == f.zero
  }

  ghost predicate MulLaws<T(!new)>(f: Field<T>, a: T, b: T, c: T) {
    f.mul(a, b) == f.mul(b, a) && f.mul(f.mul(a, b), c) == f.mul(a, f.mul(b, c)) && f.mul(f.one, a) == a
    && f.mul(f.sum(a, b), c) == f.sum(f.mul(a, c), f.mul(b, c)) && (f.mul(a, b) == f.zero ==> a == f.zero || b == f.zero)
  }

  ghost predicate IsField<T(!new)>(f: Field<T>) {
    && f.one != f.zero
    && (forall a: T, b: T, c: T :: SumLaws(f, a, b, c))
    && (forall a: T, b: T, c: T :: MulLaws(f, a, b, c))
  }

  lemma ZeroTimes<T(!new)>(f: Field<T>, a: T)
    requires IsField(f)
    ensures f.mul(f.zero, a) == f.zero && f.mul(a, f.zero) == f.zero
  {
    assert MulLaws(f, a, a, a);
    assert SumLaws(f, a, a, a);
    assert SumLaws(f, f.mul(a, a), a, a);
    assert MulLaws(f, f.zero, a, a);
  }

  lemma Cancels<T(!new)>(f: Field<T>, a: T, b: T)
    requires IsField(f) && f.sum(a, b) == f.zero
    ensures a == b
  {
    assert SumLaws(f, a, b, b);
    assert SumLaws(f, b, b, f.zero);
    assert SumLaws(f, f.zero, b, b);
  }

  lemma Reorders<T(!new)>(f: Field<T>, a: T, b: T, c: T, d: T)
    requires IsField(f)
    ensures f.sum(f.sum(a, b), f.sum(c, d)) == f.sum(f.sum(a, c), f.sum(b, d))
  {
    assert SumLaws(f, a, b, f.sum(c, d));
    assert SumLaws(f, b, c, d);
    assert SumLaws(f, c, b, d);
    assert SumLaws(f, a, c, f.sum(b, d));
  }

  lemma FromLeft<T(!new)>(f: Field<T>, a: T, b: T, c: T)
    requires IsField(f)
    ensures f.mul(c, f.sum(a, b)) == f.sum(f.mul(c, a), f.mul(c, b))
  {
    assert MulLaws(f, a, b, c);
    assert MulLaws(f, f.sum(a, b), c, c);
    assert MulLaws(f, a, c, c);
    assert MulLaws(f, b, c, c);
  }

  lemma Swaps<T(!new)>(f: Field<T>, a: T, b: T, c: T)
    requires IsField(f)
    ensures f.mul(a, f.mul(b, c)) == f.mul(b, f.mul(a, c))
  {
    assert MulLaws(f, a, b, c);
    assert MulLaws(f, b, a, c);
  }

  // ---------- powers ----------

  ghost function Pow<T>(f: Field<T>, a: T, n: nat): T
    decreases n, f
  {
    if n == 0 then f.one else f.mul(a, Pow(f, a, n - 1))
  }

  lemma {:induction false} PowAdd<T(!new)>(f: Field<T>, a: T, m: nat, n: nat)
    requires IsField(f)
    ensures Pow(f, a, m + n) == f.mul(Pow(f, a, m), Pow(f, a, n))
    decreases m
  {
    if m == 0 {
      assert MulLaws(f, Pow(f, a, n), a, a);
    } else {
      PowAdd(f, a, m - 1, n);
      assert MulLaws(f, a, Pow(f, a, m - 1), Pow(f, a, n));
    }
  }

  lemma {:induction false} PowNonzero<T(!new)>(f: Field<T>, a: T, n: nat)
    requires IsField(f) && a != f.zero
    ensures Pow(f, a, n) != f.zero
    decreases n
  {
    if n > 0 {
      PowNonzero(f, a, n - 1);
      assert MulLaws(f, a, Pow(f, a, n - 1), a);
    }
  }

  lemma {:induction false} PowOfProduct<T(!new)>(f: Field<T>, a: T, b: T, n: nat)
    requires IsField(f)
    ensures Pow(f, f.mul(a, b), n) == f.mul(Pow(f, a, n), Pow(f, b, n))
    decreases n
  {
    if n == 0 {
      assert MulLaws(f, f.one, f.one, f.one);
    } else {
      var p, q := Pow(f, a, n - 1), Pow(f, b, n - 1);
      PowOfProduct(f, a, b, n - 1);
      assert MulLaws(f, a, b, f.mul(p, q));
      Swaps(f, b, p, q);
      assert MulLaws(f, a, p, f.mul(b, q));
    }
  }

  lemma PowLess<T(!new)>(f: Field<T>, a: T, m: nat, n: nat)
    requires IsField(f) && a != f.zero && m <= n && Pow(f, a, m) == Pow(f, a, n)
    ensures Pow(f, a, n - m) == f.one
  {
    var p, q := Pow(f, a, m), Pow(f, a, n - m);
    PowAdd(f, a, m, n - m);
    PowNonzero(f, a, m);
    assert MulLaws(f, p, q, p);
    assert MulLaws(f, f.one, q, p);
    assert SumLaws(f, p, p, p);
    assert MulLaws(f, f.sum(f.one, q), p, p);
    Cancels(f, f.one, q);
  }

  // ---------- the order of an element ----------

  ghost function Gcd(m: nat, n: nat): (g: nat)
    requires m > 0 && n > 0
    ensures 0 < g <= m && g <= n
    decreases m + n
  {
    if m == n then m else if m < n then Gcd(m, n - m) else Gcd(m - n, n)
  }

  lemma {:induction false} GcdDivides(m: nat, n: nat) returns (p: nat, q: nat)
    requires m > 0 && n > 0
    ensures m == p * Gcd(m, n) && n == q * Gcd(m, n)
    decreases m + n
  {
    if m == n {
      p, q := 1, 1;
    } else if m < n {
      p, q := GcdDivides(m, n - m);
      assert (p + q) * Gcd(m, n) == p * Gcd(m, n) + q * Gcd(m, n);
      q := p + q;
    } else {
      p, q := GcdDivides(m - n, n);
      assert (p + q) * Gcd(m, n) == p * Gcd(m, n) + q * Gcd(m, n);
      p := p + q;
    }
  }

  lemma {:induction false} OneAtGcd<T(!new)>(f: Field<T>, a: T, m: nat, n: nat)
    requires IsField(f) && a != f.zero && m > 0 && n > 0 && Pow(f, a, m) == f.one && Pow(f, a, n) == f.one
    ensures Pow(f, a, Gcd(m, n)) == f.one
    decreases m + n
  {
    if m < n {
      PowLess(f, a, m, n);
      OneAtGcd(f, a, m, n - m);
    } else if m > n {
      PowLess(f, a, n, m);
      OneAtGcd(f, a, m - n, n);
    }
  }

  lemma {:induction false} OneAtMultiples<T(!new)>(f: Field<T>, a: T, n: nat, k: nat)
    requires IsField(f) && Pow(f, a, n) == f.one
    ensures Pow(f, a, k * n) == f.one
    decreases k
  {
    if k > 0 {
      OneAtMultiples(f, a, n, k - 1);
      assert k * n == n + (k - 1) * n;
      PowAdd(f, a, n, (k - 1) * n);
      assert MulLaws(f, f.one, a, a);
    }
  }

  // ---------- three terms ----------

  ghost predicate Vanishes<T(!new)>(f: Field<T>, a: T, b: T, c: T) {
    f.sum(f.sum(a, b), c) == f.zero
  }

  /** Adding to one vanishing sum a multiple of another takes out the last term. */
  lemma Eliminates<T(!new)>(f: Field<T>, a: T, b: T, c: T, x: T, y: T, z: T)
    requires IsField(f) && Vanishes(f, a, b, c) && Vanishes(f, f.mul(a, x), f.mul(b, y), f.mul(c, z))
    ensures f.sum(f.mul(a, f.sum(x, z)), f.mul(b, f.sum(y, z))) == f.zero
  {
    FromLeft(f, x, z, a);
    FromLeft(f, y, z, b);
    Reorders(f, f.mul(a, x), f.mul(a, z), f.mul(b, y), f.mul(b, z));
    assert MulLaws(f, f.sum(a, b), c, z);
    assert MulLaws(f, a, b, z);
    ZeroTimes(f, z);
    Cancels(f, f.sum(f.mul(a, x), f.mul(b, y)), f.mul(c, z));
    Cancels(f, f.sum(f.mul(a, z), f.mul(b, z)), f.mul(c, z));
    assert SumLaws(f, f.mul(c, z), a, a);
  }

  lemma Moves<T(!new)>(f: Field<T>, a: T, x: T, s: T)
    requires IsField(f)
    ensures f.mul(f.mul(a, x), s) == f.mul(x, f.mul(a, s))
  {
    assert MulLaws(f, a, x, s);
    Swaps(f, a, x, s);
  }

  /** Three powers of three different elements: the first coefficient is zero. */
  lemma FirstIsZero<T(!new)>(f: Field<T>, a: T, b: T, c: T, x: T, y: T, z: T)
    requires IsField(f) && x != y && x != z && Vanishes(f, a, b, c)
    requires Vanishes(f, f.mul(a, x), f.mul(b, y), f.mul(c, z))
    requires Vanishes(f, f.mul(f.mul(a, x), x), f.mul(f.mul(b, y), y), f.mul(f.mul(c, z), z))
    ensures a == f.zero
  {
    var p, q := f.mul(a, f.sum(x, z)), f.mul(b, f.sum(y, z));
    Eliminates(f, a, b, c, x, y, z);
    Eliminates(f, f.mul(a, x), f.mul(b, y), f.mul(c, z), x, y, z);
    Moves(f, a, x, f.sum(x, z));
    Moves(f, b, y, f.sum(y, z));
    Cancels(f, p, q);
    assert MulLaws(f, x, y, p);
    assert MulLaws(f, f.sum(x, y), p, p);
    if p == f.zero {
      assert MulLaws(f, a, f.sum(x, z), a);
      if a != f.zero { Cancels(f, x, z); }
    } else {
      Cancels(f, x, y);
    }
  }

  lemma VanishesSwap<T(!new)>(f: Field<T>, a: T, b: T, c: T)
    requires IsField(f) && Vanishes(f, a, b, c)
    ensures Vanishes(f, b, a, c) && Vanishes(f, c, b, a)
  {
    assert SumLaws(f, a, b, c);
    assert SumLaws(f, a, f.sum(b, c), c);
    assert SumLaws(f, b, c, c);
  }

  lemma AllAreZero<T(!new)>(f: Field<T>, a: T, b: T, c: T, x: T, y: T, z: T)
    requires IsField(f) && x != y && x != z && y != z && Vanishes(f, a, b, c)
    requires Vanishes(f, f.mul(a, x), f.mul(b, y), f.mul(c, z))
    requires Vanishes(f, f.mul(f.mul(a, x), x), f.mul(f.mul(b, y), y), f.mul(f.mul(c, z), z))
    ensures a == f.zero && b == f.zero && c == f.zero
  {
    FirstIsZero(f, a, b, c, x, y, z);
    VanishesSwap(f, a, b, c);
    VanishesSwap(f, f.mul(a, x), f.mul(b, y), f.mul(c, z));
    VanishesSwap(f, f.mul(f.mul(a, x), x), f.mul(f.mul(b, y), y), f.mul(f.mul(c, z), z));
    FirstIsZero(f, b, a, c, y, x, z);
    FirstIsZero(f, c, b, a, z, y, x);
  }

  // ---------- polynomials, the highest coefficient first ----------

  ghost function Ev<T>(f: Field<T>, w: seq<T>, r: T): T {
    if w == [] then f.zero else f.sum(f.mul(r, Ev(f, w[..|w| - 1], r)), w[|w| - 1])
  }

  ghost predicate IsSum<T(!new)>(f: Field<T>, w: seq<T>, x: seq<T>, s: seq<T>) {
    |w| == |x| == |s| && forall i :: 0 <= i < |w| ==> s[i] == f.sum(w[i], x[i])
  }

  ghost predicate IsMultiple<T(!new)>(f: Field<T>, t: T, w: seq<T>, s: seq<T>) {
    |w| == |s| && forall i :: 0 <= i < |w| ==> s[i] == f.mul(t, w[i])
  }

  lemma {:induction false} EvSum<T(!new)>(f: Field<T>, w: seq<T>, x: seq<T>, s: seq<T>, r: T)
    requires IsField(f) && IsSum(f, w, x, s)
    ensures Ev(f, s, r) == f.sum(Ev(f, w, r), Ev(f, x, r))
    decreases |s|
  {
    if s == [] {
      assert SumLaws(f, f.zero, f.zero, f.zero);
    } else {
      var n := |s| - 1;
      EvSum(f, w[..n], x[..n], s[..n], r);
      FromLeft(f, Ev(f, w[..n], r), Ev(f, x[..n], r), r);
      Reorders(f, f.mul(r, Ev(f, w[..n], r)), f.mul(r, Ev(f, x[..n], r)), w[n], x[n]);
    }
  }

  lemma {:induction false} EvMultiple<T(!new)>(f: Field<T>, t: T, w: seq<T>, s: seq<T>, r: T)
    requires IsField(f) && IsMultiple(f, t, w, s)
    ensures Ev(f, s, r) == f.mul(t, Ev(f, w, r))
    decreases |s|
  {
    if s == [] {
      ZeroTimes(f, t);
    } else {
      var n := |s| - 1;
      EvMultiple(f, t, w[..n], s[..n], r);
      Swaps(f, r, t, Ev(f, w[..n], r));
      FromLeft(f, f.mul(r, Ev(f, w[..n], r)), w[n], t);
    }
  }

  /** Zero but for a at p. */
  ghost predicate IsTerm<T(!new)>(f: Field<T>, w: seq<T>, p: nat, a: T) {
    p < |w| && forall i :: 0 <= i < |w| ==> w[i] == if i == p then a else f.zero
  }

  ghost predicate IsNothing<T(!new)>(f: Field<T>, w: seq<T>) {
    forall i :: 0 <= i < |w| ==> w[i] == f.zero
  }

  lemma {:induction false} EvNothing<T(!new)>(f: Field<T>, w: seq<T>, r: T)
    requires IsField(f) && IsNothing(f, w)
    ensures Ev(f, w, r) == f.zero
    decreases |w|
  {
    if w != [] {
      EvNothing(f, w[..|w| - 1], r);
      ZeroTimes(f, r);
      assert SumLaws(f, f.zero, f.zero, f.zero);
    }
  }

  lemma {:induction false} EvTerm<T(!new)>(f: Field<T>, w: seq<T>, p: nat, a: T, r: T)
    requires IsField(f) && IsTerm(f, w, p, a)
    ensures Ev(f, w, r) == f.mul(a, Pow(f, r, |w| - 1 - p))
    decreases |w|
  {
    var n := |w| - 1;
    if p == n {
      EvNothing(f, w[..n], r);
      ZeroTimes(f, r);
      assert SumLaws(f, a, f.zero, a);
      assert MulLaws(f, f.one, a, a);
      assert MulLaws(f, a, f.one, a);
    } else {
      EvTerm(f, w[..n], p, a, r);
      Swaps(f, r, a, Pow(f, r, n - 1 - p));
      assert SumLaws(f, f.mul(a, Pow(f, r, n - p)), a, a);
    }
  }

  lemma {:induction false} EvLeadingZero<T(!new)>(f: Field<T>, w: seq<T>, s: seq<T>, r: T)
    requires IsField(f) && s == [f.zero] + w
    ensures Ev(f, s, r) == Ev(f, w, r)
    decreases |w|
  {
    var n := |w|;
    assert s[..n] == if n == 0 then [] else [f.zero] + w[..n - 1];
    if n == 0 {
      EvNothing(f, s, r);
    } else {
      EvLeadingZero(f, w[..n - 1], s[..n], r);
    }
  }

  ghost function Only<T(!new)>(f: Field<T>, w: seq<T>, p: nat): (s: seq<T>)
    requires p < |w|
    ensures |s| == |w| && IsTerm(f, s, p, w[p])
  {
    seq(|w|, i requires 0 <= i < |w| => if i == p then w[p] else f.zero)
  }

  ghost function Added<T(!new)>(f: Field<T>, w: seq<T>, x: seq<T>): (s: seq<T>)
    requires |w| == |x|
    ensures IsSum(f, w, x, s)
  {
    seq(|w|, i requires 0 <= i < |w| => f.sum(w[i], x[i]))
  }

  ghost predicate ThreePlaces<T(!new)>(f: Field<T>, w: seq<T>, i: nat, j: nat, k: nat) {
    i < j < k < |w| && forall n :: 0 <= n < |w| && n != i && n != j && n != k ==> w[n] == f.zero
  }

  lemma SplitsInThree<T(!new)>(f: Field<T>, w: seq<T>, i: nat, j: nat, k: nat)
    requires IsField(f) && ThreePlaces(f, w, i, j, k)
    ensures IsSum(f, Added(f, Only(f, w, i), Only(f, w, j)), Only(f, w, k), w)
  {
    var a, b, c := Only(f, w, i), Only(f, w, j), Only(f, w, k);
    forall n | 0 <= n < |w| ensures w[n] == f.sum(Added(f, a, b)[n], c[n]) {
      assert SumLaws(f, w[n], f.zero, f.zero);
      assert SumLaws(f, f.zero, w[n], f.zero);
      assert SumLaws(f, f.zero, f.zero, f.zero);
    }
  }

  /** What one coefficient contributes. */
  ghost function TermAt<T>(f: Field<T>, w: seq<T>, p: nat, r: T): T
    requires p < |w|
  {
    f.mul(w[p], Pow(f, r, |w| - 1 - p))
  }

  lemma EvOnly<T(!new)>(f: Field<T>, w: seq<T>, p: nat, r: T)
    requires IsField(f) && p < |w|
    ensures Ev(f, Only(f, w, p), r) == TermAt(f, w, p, r)
  {
    EvTerm(f, Only(f, w, p), p, w[p], r);
  }

  /** A polynomial that is zero but at three places. */
  lemma EvThree<T(!new)>(f: Field<T>, w: seq<T>, i: nat, j: nat, k: nat, r: T)
    requires IsField(f) && ThreePlaces(f, w, i, j, k)
    ensures Ev(f, w, r) == f.sum(f.sum(TermAt(f, w, i, r), TermAt(f, w, j, r)), TermAt(f, w, k, r))
  {
    EvOnly(f, w, i, r);
    EvOnly(f, w, j, r);
    EvOnly(f, w, k, r);
    SplitsInThree(f, w, i, j, k);
    SumOfThree(f, Only(f, w, i), Only(f, w, j), Only(f, w, k), w, r);
  }

  lemma SumOfThree<T(!new)>(f: Field<T>, a: seq<T>, b: seq<T>, c: seq<T>, s: seq<T>, r: T)
    requires IsField(f) && |a| == |b| && IsSum(f, Added(f, a, b), c, s)
    ensures Ev(f, s, r) == f.sum(f.sum(Ev(f, a, r), Ev(f, b, r)), Ev(f, c, r))
  {
    EvSum(f, a, b, Added(f, a, b), r);
    EvSum(f, Added(f, a, b), c, s, r);
  }

  ghost predicate Differ<T(!new)>(f: Field<T>, a: T, m: nat, n: nat) {
    Pow(f, a, m) != Pow(f, a, n)
  }

  lemma PowersDiffer<T(!new)>(f: Field<T>, a: T, m: nat, n: nat)
    requires IsField(f) && a != f.zero && m <= n && Pow(f, a, n - m) != f.one
    ensures Differ(f, a, n, m)
  {
    if Pow(f, a, m) == Pow(f, a, n) { PowLess(f, a, m, n); }
  }

  /** A root and its multiples by one and two powers of a: three places, three vanishing sums. */
  lemma ThreePlacesEmpty<T(!new)>(f: Field<T>, w: seq<T>, i: nat, j: nat, k: nat, r: T, a: T)
    requires IsField(f) && ThreePlaces(f, w, i, j, k) && r != f.zero && a != f.zero
    requires Ev(f, w, r) == f.zero && Ev(f, w, f.mul(r, a)) == f.zero && Ev(f, w, f.mul(f.mul(r, a), a)) == f.zero
    requires Pow(f, a, j - i) != f.one && Pow(f, a, k - i) != f.one && Pow(f, a, k - j) != f.one
    ensures w[i] == f.zero && w[j] == f.zero && w[k] == f.zero
  {
    var n := |w| - 1;
    PowersDiffer(f, a, n - j, n - i);
    PowersDiffer(f, a, n - k, n - i);
    PowersDiffer(f, a, n - k, n - j);
    ThreeTermsZero(f, w, i, j, k, r, a);
    FactorIsZero(f, w, i, r);
    FactorIsZero(f, w, j, r);
    FactorIsZero(f, w, k, r);
  }

  lemma ThreeTermsZero<T(!new)>(f: Field<T>, w: seq<T>, i: nat, j: nat, k: nat, r: T, a: T)
    requires IsField(f) && ThreePlaces(f, w, i, j, k)
    requires Ev(f, w, r) == f.zero && Ev(f, w, f.mul(r, a)) == f.zero && Ev(f, w, f.mul(f.mul(r, a), a)) == f.zero
    requires var n := |w| - 1; Differ(f, a, n - i, n - j) && Differ(f, a, n - i, n - k) && Differ(f, a, n - j, n - k)
    ensures TermAt(f, w, i, r) == f.zero && TermAt(f, w, j, r) == f.zero && TermAt(f, w, k, r) == f.zero
  {
    var n := |w| - 1;
    EvThree(f, w, i, j, k, r);
    EvThree(f, w, i, j, k, f.mul(r, a));
    EvThree(f, w, i, j, k, f.mul(f.mul(r, a), a));
    PowersSplit(f, w[i], r, a, n - i);
    PowersSplit(f, w[j], r, a, n - j);
    PowersSplit(f, w[k], r, a, n - k);
    AllAreZero(f, TermAt(f, w, i, r), TermAt(f, w, j, r), TermAt(f, w, k, r),
               Pow(f, a, n - i), Pow(f, a, n - j), Pow(f, a, n - k));
  }

  lemma PowersSplit<T(!new)>(f: Field<T>, c: T, r: T, a: T, n: nat)
    requires IsField(f)
    ensures f.mul(c, Pow(f, f.mul(r, a), n)) == f.mul(f.mul(c, Pow(f, r, n)), Pow(f, a, n))
    ensures f.mul(c, Pow(f, f.mul(f.mul(r, a), a), n)) == f.mul(f.mul(f.mul(c, Pow(f, r, n)), Pow(f, a, n)), Pow(f, a, n))
  {
    PowOfProduct(f, r, a, n);
    PowOfProduct(f, f.mul(r, a), a, n);
    assert MulLaws(f, c, Pow(f, r, n), Pow(f, a, n));
    assert MulLaws(f, c, Pow(f, f.mul(r, a), n), Pow(f, a, n));
  }

  lemma FactorIsZero<T(!new)>(f: Field<T>, w: seq<T>, p: nat, r: T)
    requires IsField(f) && r != f.zero && p < |w| && TermAt(f, w, p, r) == f.zero
    ensures w[p] == f.zero
  {
    PowNonzero(f, r, |w| - 1 - p);
    assert MulLaws(f, w[p], Pow(f, r, |w| - 1 - p), w[p]);
  }

  // ---------- adjoining a root ----------

  /** u + v * w, where w * w == w + 1. */
  datatype Pair<T> = Pair(u: T, v: T)

  ghost function PairSum<T>(f: Field<T>, a: Pair<T>, b: Pair<T>): Pair<T> {
    Pair(f.sum(a.u, b.u), f.sum(a.v, b.v))
  }

  ghost function PairMul<T>(f: Field<T>, a: Pair<T>, b: Pair<T>): Pair<T> {
    Pair(f.sum(f.mul(a.u, b.u), f.mul(a.v, b.v)), f.sum(f.sum(f.mul(a.u, b.v), f.mul(a.v, b.u)), f.mul(a.v, b.v)))
  }

  ghost function Extension<T>(f: Field<T>): Field<Pair<T>> {
    Field(Pair(f.zero, f.zero), Pair(f.one, f.zero), (a, b) => PairSum(f, a, b), (a, b) => PairMul(f, a, b))
  }

  /** u * u + u * v + v * v, the product of u + v * w and u + v + v * w. */
  ghost function Norm<T>(f: Field<T>, a: Pair<T>): T {
    f.sum(f.sum(f.mul(a.u, a.u), f.mul(a.u, a.v)), f.mul(a.v, a.v))
  }

  ghost predicate NoNorm<T(!new)>(f: Field<T>) {
    forall a: Pair<T> :: Norm(f, a) == f.zero ==> a == Pair(f.zero, f.zero)
  }

  lemma PairSumLaws<T(!new)>(f: Field<T>, a: Pair<T>, b: Pair<T>, c: Pair<T>)
    requires IsField(f)
    ensures SumLaws(Extension(f), a, b, c)
  {
    assert SumLaws(f, a.u, b.u, c.u);
    assert SumLaws(f, a.v, b.v, c.v);
  }

  lemma PairCommutes<T(!new)>(f: Field<T>, a: Pair<T>, b: Pair<T>)
    requires IsField(f)
    ensures PairMul(f, a, b) == PairMul(f, b, a)
  {
    assert MulLaws(f, a.u, b.u, a.u);
    assert MulLaws(f, a.v, b.v, a.u);
    assert MulLaws(f, a.u, b.v, a.u);
    assert MulLaws(f, a.v, b.u, a.u);
    assert SumLaws(f, f.mul(a.u, b.v), f.mul(a.v, b.u), a.u);
  }

  lemma PairDistributes<T(!new)>(f: Field<T>, a: Pair<T>, b: Pair<T>, c: Pair<T>)
    requires IsField(f)
    ensures PairMul(f, PairSum(f, a, b), c) == PairSum(f, PairMul(f, a, c), PairMul(f, b, c))
  {
    assert MulLaws(f, a.u, b.u, c.u);
    assert MulLaws(f, a.v, b.v, c.v);
    assert MulLaws(f, a.u, b.u, c.v);
    assert MulLaws(f, a.v, b.v, c.u);
    Reorders(f, f.mul(a.u, c.u), f.mul(b.u, c.u), f.mul(a.v, c.v), f.mul(b.v, c.v));
    var p, q, s, t := f.mul(a.u, c.v), f.mul(b.u, c.v), f.mul(a.v, c.u), f.mul(b.v, c.u);
    Reorders(f, p, q, s, t);
    Reorders(f, f.sum(p, s), f.sum(q, t), f.mul(a.v, c.v), f.mul(b.v, c.v));
  }

  /** A factor goes into a product of pairs. */
  lemma ScalarFirst<T(!new)>(f: Field<T>, x: T, b: Pair<T>, c: Pair<T>)
    requires IsField(f)
    ensures PairMul(f, Pair(f.mul(x, b.u), f.mul(x, b.v)), c)
         == Pair(f.mul(x, PairMul(f, b, c).u), f.mul(x, PairMul(f, b, c).v))
  {
    assert MulLaws(f, x, b.u, c.u);
    assert MulLaws(f, x, b.u, c.v);
    assert MulLaws(f, x, b.v, c.u);
    assert MulLaws(f, x, b.v, c.v);
    FromLeft(f, f.mul(b.u, c.u), f.mul(b.v, c.v), x);
    FromLeft(f, f.mul(b.u, c.v), f.mul(b.v, c.u), x);
    FromLeft(f, f.sum(f.mul(b.u, c.v), f.mul(b.v, c.u)), f.mul(b.v, c.v), x);
  }

  /** w * (b * c) == (w * b) * c. */
  lemma RootFirst<T(!new)>(f: Field<T>, b: Pair<T>, c: Pair<T>)
    requires IsField(f)
    ensures PairMul(f, Turned(f, b), c) == Turned(f, PairMul(f, b, c))
  {
    var p, q, s, t := f.mul(b.u, c.u), f.mul(b.u, c.v), f.mul(b.v, c.u), f.mul(b.v, c.v);
    assert MulLaws(f, b.u, b.v, c.u);
    assert MulLaws(f, b.u, b.v, c.v);
    assert SumLaws(f, s, q, t);
    assert SumLaws(f, q, s, t);
    TurnedTerms(f, p, q, s, t);
  }

  /** w * b. */
  ghost function Turned<T>(f: Field<T>, b: Pair<T>): Pair<T> {
    Pair(b.v, f.sum(b.u, b.v))
  }

  lemma TurnedTerms<T(!new)>(f: Field<T>, p: T, q: T, s: T, t: T)
    requires IsField(f)
    ensures f.sum(f.sum(t, f.sum(p, s)), f.sum(q, t)) == f.sum(f.sum(p, t), f.sum(f.sum(q, s), t))
  {
    assert SumLaws(f, t, f.sum(p, s), t);
    Reorders(f, f.sum(p, s), t, q, t);
    Reorders(f, p, s, q, f.zero);
    assert SumLaws(f, t, t, t);
    assert SumLaws(f, s, f.zero, t);
    Reorders(f, p, t, f.sum(q, s), t);
    assert SumLaws(f, f.sum(p, f.sum(q, s)), f.zero, t);
    assert SumLaws(f, f.sum(f.sum(p, q), s), f.zero, t);
    assert SumLaws(f, f.sum(f.sum(p, s), q), f.zero, t);
    assert SumLaws(f, p, q, s);
    assert SumLaws(f, p, s, q);
    assert SumLaws(f, q, s, p);
  }

  /** Every pair is u + v * w. */
  lemma Parts<T(!new)>(f: Field<T>, a: Pair<T>, b: Pair<T>)
    requires IsField(f)
    ensures PairMul(f, a, b) == PairSum(f, Pair(f.mul(a.u, b.u), f.mul(a.u, b.v)), Turned(f, Pair(f.mul(a.v, b.u), f.mul(a.v, b.v))))
  {
    assert SumLaws(f, f.mul(a.u, b.v), f.mul(a.v, b.u), f.mul(a.v, b.v));
  }

  lemma PairAssociates<T(!new)>(f: Field<T>, a: Pair<T>, b: Pair<T>, c: Pair<T>)
    requires IsField(f)
    ensures PairMul(f, PairMul(f, a, b), c) == PairMul(f, a, PairMul(f, b, c))
  {
    var p, q := Pair(f.mul(a.u, b.u), f.mul(a.u, b.v)), Pair(f.mul(a.v, b.u), f.mul(a.v, b.v));
    Parts(f, a, b);
    PairDistributes(f, p, Turned(f, q), c);
    RootFirst(f, q, c);
    ScalarFirst(f, a.u, b, c);
    ScalarFirst(f, a.v, b, c);
    Parts(f, a, PairMul(f, b, c));
  }

  lemma PairUnit<T(!new)>(f: Field<T>, a: Pair<T>)
    requires IsField(f)
    ensures PairMul(f, Pair(f.one, f.zero), a) == a
  {
    assert MulLaws(f, a.u, a.u, a.u);
    assert MulLaws(f, a.v, a.v, a.v);
    ZeroTimes(f, a.u);
    ZeroTimes(f, a.v);
    assert SumLaws(f, a.u, a.u, a.u);
    assert SumLaws(f, a.v, a.v, a.v);
  }

  lemma PairScalar<T(!new)>(f: Field<T>, x: T, a: Pair<T>)
    requires IsField(f)
    ensures PairMul(f, Pair(x, f.zero), a) == Pair(f.mul(x, a.u), f.mul(x, a.v))
  {
    ZeroTimes(f, a.u);
    ZeroTimes(f, a.v);
    assert SumLaws(f, f.mul(x, a.u), a.u, a.u);
    assert SumLaws(f, f.mul(x, a.v), a.v, a.v);
  }

  lemma Conjugates<T(!new)>(f: Field<T>, a: Pair<T>)
    requires IsField(f)
    ensures PairMul(f, Pair(f.sum(a.u, a.v), a.v), a) == Pair(Norm(f, a), f.zero)
  {
    var p, q, t := f.mul(a.u, a.u), f.mul(a.u, a.v), f.mul(a.v, a.v);
    assert MulLaws(f, a.u, a.v, a.u);
    assert MulLaws(f, a.u, a.v, a.v);
    assert MulLaws(f, a.v, a.u, a.v);
    assert SumLaws(f, q, t, q);
    assert SumLaws(f, t, q, q);
    assert SumLaws(f, q, q, t);
    assert SumLaws(f, t, q, t);
    assert SumLaws(f, t, t, t);
    assert SumLaws(f, f.zero, t, t);
    assert SumLaws(f, f.sum(q, t), q, t);
  }

  lemma PairNoDivisors<T(!new)>(f: Field<T>, a: Pair<T>, b: Pair<T>)
    requires IsField(f) && NoNorm(f) && PairMul(f, a, b) == Pair(f.zero, f.zero)
    ensures a == Pair(f.zero, f.zero) || b == Pair(f.zero, f.zero)
  {
    var c, n := Pair(f.sum(a.u, a.v), a.v), Norm(f, a);
    Conjugates(f, a);
    PairAssociates(f, c, a, b);
    PairScalar(f, n, b);
    PairScalar(f, f.zero, c);
    PairCommutes(f, Pair(f.zero, f.zero), c);
    ZeroTimes(f, c.u);
    ZeroTimes(f, c.v);
    assert MulLaws(f, n, b.u, b.u);
    assert MulLaws(f, n, b.v, b.v);
  }

  lemma PairMulLaws<T(!new)>(f: Field<T>, a: Pair<T>, b: Pair<T>, c: Pair<T>)
    requires IsField(f) && NoNorm(f)
    ensures MulLaws(Extension(f), a, b, c)
  {
    PairCommutes(f, a, b);
    PairAssociates(f, a, b, c);
    PairUnit(f, a);
    PairDistributes(f, a, b, c);
    if PairMul(f, a, b) == Pair(f.zero, f.zero) { PairNoDivisors(f, a, b); }
  }

  lemma ExtensionIsField<T(!new)>(f: Field<T>)
    requires IsField(f) && NoNorm(f)
    ensures IsField(Extension(f))
  {
    forall a: Pair<T>, b: Pair<T>, c: Pair<T> ensures SumLaws(Extension(f), a, b, c) {
      PairSumLaws(f, a, b, c);
    }
    forall a: Pair<T>, b: Pair<T>, c: Pair<T> ensures MulLaws(Extension(f), a, b, c) {
      PairMulLaws(f, a, b, c);
    }
  }
}
