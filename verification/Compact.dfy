/**
 * The compact encoding of targets, and the work a block stands for
 * (src/arith_uint256.cpp, src/chain.cpp).
 */
module Compact {
  import opened ArithUint256
  import NonLinear
  import opened Powers

  const SIGN := 0x80_0000
  const EXPONENT := 0x100_0000

  function Size(c: nat): nat { c / EXPONENT }

  function Mantissa(c: nat): nat { c % SIGN }

  predicate SignBit(c: nat) { c / SIGN % 2 == 1 }

  /** The mantissa after the bytes below the units have been dropped. */
  function Word(c: nat): nat {
    if Size(c) <= 3 then Shr(Mantissa(c), 8 * (3 - Size(c))) else Mantissa(c)
  }

  /** The number an encoding denotes, however large. */
  ghost function Denoted(c: nat): nat {
    if Size(c) <= 3 then Word(c) else Scaled(Mantissa(c), 8 * (Size(c) - 3))
  }

  ghost function Scaled(m: nat, e: nat): (r: nat)
    ensures r == m * P2(e)
  {
    NonLinear.MulMono(P2(e), 0, m);
    m * P2(e)
  }

  lemma ScaledOrder(m: nat, k: nat, p: nat)
    requires p > 0
    ensures m * p >= k * p <==> m >= k
  {
    if m >= k {
      NonLinear.MulMono(p, k, m);
    } else {
      NonLinear.MulMono(p, m + 1, k);
      NonLinear.Dist(m, 1, p);
    }
  }

  lemma P2Values()
    ensures P2(23) == SIGN && P2(24) == EXPONENT
  {
    P2Limb();
    assert P2(7) == 128;
    P2Add(16, 7);
    P2Add(16, 8);
  }

  predicate TooLarge(m: nat, size: nat) {
    m != 0 && (size > 34 || (m > 0xff && size > 33) || (m > 0xffff && size > 32))
  }

  lemma NeverTooLarge(m: nat, e: nat)
    requires m < SIGN && e <= 233
    ensures m * P2(e) < P2(256)
  {
    P2Values();
    P2Add(23, e);
    P2Mono(23 + e, 256);
    ScaledOrder(m, P2(23), P2(e));
  }

  lemma AlwaysTooLarge(m: nat, e: nat)
    requires m > 0 && e >= 256
    ensures m * P2(e) >= P2(256)
  {
    P2Mono(256, e);
    NonLinear.MulGrows(P2(e), m);
  }

  lemma Boundary(m: nat, e: nat, k: nat, n: nat)
    requires e + k == n
    ensures m * P2(e) >= P2(n) <==> m >= P2(k)
  {
    P2Add(k, e);
    ScaledOrder(m, P2(k), P2(e));
  }

  /** The three comparisons of the overflow test are exact. */
  lemma OverflowExact(m: nat, size: nat)
    requires m < SIGN && size > 3
    ensures TooLarge(m, size) <==> m * P2(8 * (size - 3)) >= P2(256)
  {
    if size > 34 {
      if m > 0 { AlwaysTooLarge(m, 8 * (size - 3)); }
    } else if size == 34 {
      P2Limb();
      Boundary(m, 8 * (size - 3), 8, 256);
    } else if size == 33 {
      P2Limb();
      Boundary(m, 8 * (size - 3), 16, 256);
    } else {
      NeverTooLarge(m, 8 * (size - 3));
    }
  }

  lemma DenotedFits(c: nat)
    requires c < BASE
    ensures TooLarge(Word(c), Size(c)) <==> Denoted(c) >= B(WIDTH)
  {
    BIsP2(WIDTH);
    if Size(c) > 3 {
      OverflowExact(Mantissa(c), Size(c));
    } else {
      SmallFits(c);
    }
  }

  lemma SmallFits(c: nat)
    requires Size(c) <= 3
    ensures Word(c) < SIGN < P2(256)
  {
    NonLinear.DivLess(Mantissa(c), P2(8 * (3 - Size(c))));
    P2Values();
    P2Mono(24, 256);
  }

  // SetCompact
  method SetCompact(x: BaseUint, c: nat) returns (negative: bool, overflow: bool)
    requires x.Valid() && c < BASE
    modifies x.pn
    ensures x.Valid() && x.Value() == Denoted(c) % B(WIDTH)
    ensures negative <==> SignBit(c) && Word(c) != 0
    ensures overflow <==> Denoted(c) >= B(WIDTH)
  {
    var size := c / EXPONENT;
    var word := c % SIGN;
    DenotedFits(c);
    if size <= 3 {
      SmallFits(c);
      word := Shr(word, 8 * (3 - size));
      var v := new BaseUint(word);
      x.Assign(v.pn[..]);
      BIsP2(WIDTH);
      Wrap(word, word, false);
    } else {
      var v := new BaseUint(word);
      x.Assign(v.pn[..]);
      x.ShiftLeft(8 * (size - 3));
    }
    negative := word != 0 && SignBit(c);
    overflow := word != 0 && (size > 34 || (word > 0xff && size > 33) || (word > 0xffff && size > 32));
  }

  // ---------- the work of a block ----------

  lemma EvenScaled(m: nat, e: nat)
    requires e > 0
    ensures m * P2(e) % 2 == 0
  {
    NonLinear.MulAssoc(2, P2(e - 1), m);
    NonLinear.DivMod(m * P2(e), 2, P2(e - 1) * m, 0);
  }

  /** No target is the largest number, so target + 1 does not wrap to zero. */
  lemma TargetBelowMax(c: nat)
    requires c < BASE && Denoted(c) < B(WIDTH)
    ensures Denoted(c) + 1 < B(WIDTH)
  {
    BIsP2(WIDTH);
    if Size(c) <= 3 {
      P2Mono(24, 256);
      P2Values();
      SmallFits(c);
    } else {
      EvenScaled(Mantissa(c), 8 * (Size(c) - 3));
      EvenScaled(1, 256);
    }
  }

  /** The identity the source relies on: 2^256 itself does not fit, its quotient does. */
  lemma ProofIdentity(t: nat)
    requires 0 < t && t + 1 < B(WIDTH)
    ensures (B(WIDTH) - 1 - t) / (t + 1) + 1 == B(WIDTH) / (t + 1) < B(WIDTH)
  {
    OneMore(B(WIDTH), t + 1);
  }

  lemma OneMore(n: nat, d: nat)
    requires 1 < d < n
    ensures (n - d) / d + 1 == n / d < n
  {
    var q, r := (n - d) / d, (n - d) % d;
    assert n == d * (q + 1) + r by { NonLinear.Dist(q, 1, d); }
    NonLinear.DivMod(n, d, q + 1, r);
    NonLinear.MulMono(q + 1, 2, d);
    NonLinear.DivNat(n - d, d);
  }

  /** The expected number of hashes for an encoded target; 0 for an encoding no block may carry. */
  ghost function Work(c: nat): nat {
    if (SignBit(c) && Word(c) != 0) || Denoted(c) >= B(WIDTH) || Denoted(c) == 0 then 0
    else NonLinear.DivNat(B(WIDTH), Denoted(c) + 1); B(WIDTH) / (Denoted(c) + 1)
  }

  // GetBlockProof
  method GetBlockProof(nBits: nat) returns (proof: BaseUint)
    requires nBits < BASE
    ensures proof.Valid() && proof.Value() == Work(nBits)
  {
    var target := new BaseUint(0);
    var negative, overflow := SetCompact(target, nBits);
    if !overflow { Wrap(Denoted(nBits), Denoted(nBits), false); }
    var zero := target.EqualTo(0);
    if negative || overflow || zero {
      proof := new BaseUint(0);
      return;
    }
    TargetBelowMax(nBits);
    proof := ProofOf(target, Denoted(nBits));
  }

  method ProofOf(target: BaseUint, ghost t: nat) returns (proof: BaseUint)
    requires target.Valid() && target.Value() == t && 0 < t && t + 1 < B(WIDTH)
    modifies target.pn
    ensures proof.Valid() && proof.Value() == B(WIDTH) / (t + 1)
  {
    ProofIdentity(t);
    proof := Quotient(target, t, B(WIDTH) / (t + 1));
  }

  method Quotient(target: BaseUint, ghost t: nat, ghost q: nat) returns (proof: BaseUint)
    requires target.Valid() && target.Value() == t && 0 < t && t + 1 < B(WIDTH)
    requires (B(WIDTH) - 1 - t) / (t + 1) + 1 == q < B(WIDTH)
    modifies target.pn
    ensures proof.Valid() && proof.Value() == q
  {
    var one := new BaseUint(1);
    proof := target.Complement();
    target.Add(one);
    Wrap(t + 1, t + 1, false);
    var ok := proof.Divide(target);
    Wrap(q, q, false);
    proof.Add(one);
  }

  // ---------- encoding ----------

  /** Setting a bit that is clear. */
  lemma {:induction false} OrBit(x: nat, t: nat)
    requires x / P2(t) % 2 == 0
    ensures Or(x, P2(t)) == x + P2(t)
    decreases t
  {
    if t > 0 && x != 0 {
      HalfShiftDown(x, t);
      OrBit(x / 2, t - 1);
    }
  }

  lemma HalfShiftDown(x: nat, t: nat)
    requires t > 0
    ensures x / P2(t) == x / 2 / P2(t - 1)
  {
    var p := P2(t - 1);
    var q, r := x / 2 / p, x / 2 % p;
    assert x == 2 * p * q + (2 * r + x % 2) by { NonLinear.MulAssoc(2, p, q); }
    NonLinear.DivMod(x, 2 * p, q, 2 * r + x % 2);
  }

  /** The bytes kept of a number of the given size: three, or two when the third would set the sign bit. */
  lemma KeptBytes(v: nat, bits: nat)
    requires if bits == 0 then v == 0 else P2(bits - 1) <= v < P2(bits)
    ensures var size := (bits + 7) / 8;
            size > 3 ==> v / P2(8 * (size - 3)) < EXPONENT
    ensures var size := (bits + 7) / 8;
            size <= 3 ==> v * P2(8 * (3 - size)) < EXPONENT
  {
    var size := (bits + 7) / 8;
    assert v < P2(8 * size) by { P2Mono(bits, 8 * size); }
    P2Values();
    if size > 3 {
      P2Add(24, 8 * (size - 3));
      QuotientBound(v, P2(8 * (size - 3)), P2(24));
    } else {
      P2Add(8 * size, 8 * (3 - size));
      BelowPower(v, 8 * (3 - size), 8 * size);
    }
  }

  /** Dividing a number of so many bits by a power of two leaves that many bits fewer. */
  lemma ShiftedDown(v: nat, e: nat, n: nat)
    requires n > 0 && P2(n - 1 + e) <= v < P2(n + e)
    ensures P2(n - 1) <= v / P2(e) < P2(n)
  {
    P2Add(n, e);
    P2Add(n - 1, e);
    QuotientBound(v, P2(e), P2(n));
    NonLinear.DivAtLeast(v, P2(e), P2(n - 1));
  }

  lemma ShiftedUp(v: nat, e: nat, n: nat)
    requires n > 0 && P2(n - 1) <= v < P2(n)
    ensures P2(n - 1 + e) <= v * P2(e) < P2(n + e)
  {
    P2Add(n, e);
    P2Add(n - 1, e);
    BelowPower(v, e, n);
    NonLinear.MulMono(P2(e), P2(n - 1), v);
  }

  /** The number m that Represents v at the given size lies within the power of two its bits say;
      r bits of the top byte are clear. */
  lemma TopByteRange(v: nat, bits: nat, size: nat, r: nat, m: nat)
    requires bits > 0 && P2(bits - 1) <= v < P2(bits) && 8 * size == bits + r && r < 8 && Represents(m, size, v)
    ensures P2(23 - r) <= m < P2(24 - r)
  {
    if size > 3 {
      ShiftedDown(v, 8 * (size - 3), 24 - r);
    } else {
      ShiftedUp(v, 8 * (3 - size), bits);
    }
  }

  /** The top bit of the mantissa is set exactly when the number fills its bytes. */
  lemma SignByte(v: nat, bits: nat, m: nat)
    requires bits > 0 && P2(bits - 1) <= v < P2(bits) && Represents(m, (bits + 7) / 8, v)
    ensures m < EXPONENT && (m >= SIGN <==> bits % 8 == 0)
  {
    var size := (bits + 7) / 8;
    var r := 8 * size - bits;
    TopByteRange(v, bits, size, r, m);
    P2Values();
    if r > 0 { P2Mono(24 - r, 23); }
  }

  /** The unit of the last kept byte. */
  ghost function Unit(size: nat): (u: nat)
    ensures u > 0
  {
    if size <= 3 then 1 else P2(8 * (size - 3))
  }

  /** m at the given size stands for v, rounded down to the unit. */
  ghost predicate Represents(m: nat, size: nat, v: nat) {
    if size <= 3 then m == v * P2(8 * (3 - size)) else m == v / P2(8 * (size - 3))
  }

  /** Dropping a byte of the mantissa is the same as encoding one size up. */
  lemma DropByte(m: nat, size: nat, v: nat)
    requires Represents(m, size, v)
    ensures Represents(m / 256, size + 1, v)
  {
    P2Limb();
    if size > 3 {
      var p := P2(8 * (size - 3));
      P2Add(8, 8 * (size - 3));
      NonLinear.DivDiv(v, p, 256);
    } else if size == 3 {
      assert m == v;
    } else {
      P2Add(8, 8 * (3 - size) - 8);
      NonLinear.MulAssoc(v, P2(8 * (3 - size) - 8), 256);
      NonLinear.DivMod(m, 256, v * P2(8 * (3 - size) - 8), 0);
    }
  }

  /** What decoding gives back. */
  lemma RepresentsDecodes(c: nat, v: nat)
    requires Represents(Mantissa(c), Size(c), v)
    ensures Denoted(c) == v - v % Unit(Size(c))
  {
    var size := Size(c);
    if size <= 3 {
      var p := P2(8 * (3 - size));
      NonLinear.DivMod(v * p, p, v, 0);
    } else {
      RoundedDown(v, P2(8 * (size - 3)));
    }
  }

  lemma RoundedDown(v: nat, d: nat)
    requires d > 0
    ensures v / d * d == v - v % d
  {
  }

  lemma Fields(m: nat, size: nat, sign: bool)
    requires m < SIGN
    ensures var c := m + size * EXPONENT + (if sign then SIGN else 0);
            Mantissa(c) == m && Size(c) == size && (SignBit(c) <==> sign)
  {
  }

  lemma Packed(m: nat, size: nat)
    requires m < SIGN
    ensures Or(m, size * EXPONENT) == m + size * EXPONENT
    ensures Or(m + size * EXPONENT, SIGN) == m + size * EXPONENT + SIGN
  {
    P2Values();
    NonLinear.DivMod(size * EXPONENT, EXPONENT, size, 0);
    OrDisjoint(m, size * EXPONENT, 24);
    Fields(m, size, false);
    OrBit(m + size * EXPONENT, 23);
  }

  /** Three bytes are kept: the highest of them is not zero. */
  lemma FullBytes(v: nat, bits: nat)
    requires bits > 0 && P2(bits - 1) <= v
    ensures var size := (bits + 7) / 8;
            if size > 3 then v / P2(8 * (size - 3)) >= 0x1_0000 else v * P2(8 * (3 - size)) >= 0x1_0000
  {
    var size := (bits + 7) / 8;
    P2Mono(8 * (size - 1), bits - 1);
    P2Limb();
    if size > 3 {
      P2Add(16, 8 * (size - 3));
      NonLinear.DivAtLeast(v, P2(8 * (size - 3)), 0x1_0000);
    } else {
      P2Add(8 * (size - 1), 8 * (3 - size));
      NonLinear.MulMono(P2(8 * (3 - size)), P2(8 * (size - 1)), v);
    }
  }

  lemma LowSixtyFour(v: nat, size: nat)
    requires if size > 3 then v / P2(8 * (size - 3)) < EXPONENT else v * P2(8 * (3 - size)) < EXPONENT
    ensures size <= 3 ==> v % TWO64 == v && v * P2(8 * (3 - size)) >= 0
    ensures size > 3 ==> v / P2(8 * (size - 3)) % TWO64 == v / P2(8 * (size - 3))
  {
    if size <= 3 {
      NonLinear.MulGrows(v, P2(8 * (3 - size)));
    } else {
      NonLinear.DivNat(v, P2(8 * (size - 3)));
    }
  }

  // the first half of GetCompact: the top three bytes and the size
  method TopBytes(x: BaseUint) returns (m: nat, size: nat, ghost bits: nat)
    requires x.Valid()
    ensures IsLength(x.Value(), bits) && size == (bits + 7) / 8 && (bits > 0 ==> (m >= SIGN <==> bits % 8 == 0))
    ensures size <= 32 && m < EXPONENT && Represents(m, size, x.Value())
    ensures x.Value() != 0 ==> m >= 0x1_0000
  {
    var length := x.Bits();
    bits := length;
    size := (length + 7) / 8;
    KeptBytes(x.Value(), bits);
    if bits > 0 { FullBytes(x.Value(), bits); }
    LowSixtyFour(x.Value(), size);
    if size <= 3 {
      var low := x.GetLow64();
      m := low * P2(8 * (3 - size));
    } else {
      var bn := new BaseUint.Copy(x);
      bn.ShiftRight(8 * (size - 3));
      m := bn.GetLow64();
    }
    if bits > 0 { SignByte(x.Value(), bits, m); }
  }

  /** The length of a number in bits. */
  ghost predicate IsLength(v: nat, bits: nat) {
    if bits == 0 then v == 0 else P2(bits - 1) <= v < P2(bits)
  }

  /** The packed fields read back. */
  lemma PackedFields(m: nat, size: nat)
    requires m < SIGN && size < 256
    ensures var c := Or(m, size * EXPONENT);
            c + SIGN < BASE && Mantissa(c) == m && Size(c) == size && !SignBit(c)
    ensures var c := Or(Or(m, size * EXPONENT), SIGN);
            c < BASE && Mantissa(c) == m && Size(c) == size && SignBit(c)
  {
    Packed(m, size);
    Fields(m, size, false);
    Fields(m, size, true);
  }

  // the second half: the fields put together
  method Pack(m: nat, size: nat, fNegative: bool) returns (c: nat)
    requires m < SIGN && size < 256
    ensures c < BASE && Mantissa(c) == m && Size(c) == size
    ensures SignBit(c) <==> fNegative && m != 0
  {
    PackedFields(m, size);
    c := Or(m, size * EXPONENT);
    if fNegative && Mantissa(c) != 0 {
      c := Or(c, SIGN);
    }
  }

  // making room for the sign bit
  method DropTop(m: nat, size: nat, ghost v: nat) returns (m': nat, size': nat)
    requires m < EXPONENT && Represents(m, size, v)
    ensures m' < SIGN && Represents(m', size', v) && size' == if m >= SIGN then size + 1 else size
    ensures m >= 0x1_0000 ==> m' >= 0x8000
  {
    if SignBit(m) {
      DropByte(m, size, v);
      return m / 256, size + 1;
    }
    return m, size;
  }

  // GetCompact
  method GetCompact(x: BaseUint, fNegative: bool) returns (c: nat, ghost bits: nat)
    requires x.Valid()
    ensures IsLength(x.Value(), bits) && Size(c) == if bits == 0 then 0 else bits / 8 + 1
    ensures c < BASE && Denoted(c) == x.Value() - x.Value() % Unit(Size(c))
    ensures x.Value() != 0 ==> Mantissa(c) >= 0x8000
    ensures SignBit(c) <==> fNegative && Mantissa(c) != 0
  {
    var m, size;
    m, size, bits := TopBytes(x);
    m, size := DropTop(m, size, x.Value());
    c := Pack(m, size, fNegative);
    RepresentsDecodes(c, x.Value());
  }

  /** A number comes back from its encoding exactly when it has fewer than 24 bits, or no bit set
      below its top two bytes, or three if the topmost bit of them is clear. */
  method EncodeDecode(x: BaseUint) returns (c: nat, y: BaseUint, ghost bits: nat)
    requires x.Valid()
    ensures y.Valid() && c < BASE && IsLength(x.Value(), bits)
    ensures y.Value() == x.Value() - x.Value() % Unit(Size(c))
    ensures y.Value() == x.Value() <==> bits < 24 || x.Value() % P2(8 * (bits / 8 - 2)) == 0
  {
    c, bits := GetCompact(x, false);
    y := new BaseUint(0);
    ValBound(x.pn[..]);
    Wrap(Denoted(c), Denoted(c), false);
    var negative, overflow := SetCompact(y, c);
    assert !negative && !overflow;
  }
}
