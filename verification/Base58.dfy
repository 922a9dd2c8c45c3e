/** Base58 (src/base58.cpp). */
module Base58 {
  import opened Digits
  import NonLinear
  import opened Sequences

  // ---------- the buffer sizes ----------

  lemma MulLe(a: nat, b: nat, c: nat, d: nat)
    requires a <= b && c <= d
    ensures a * c <= b * d
  {
    NonLinear.MulMono(c, a, b);
    NonLinear.MulMono(b, c, d);
  }

  lemma {:induction false} PowBase(x: nat, y: nat, q: nat)
    requires x <= y
    ensures Pow(x, q) <= Pow(y, q)
    decreases q
  {
    if q > 0 {
      PowBase(x, y, q - 1);
      MulLe(x, y, Pow(x, q - 1), Pow(y, q - 1));
    }
  }

  lemma PowBaseStrict(x: nat, y: nat, q: nat)
    requires x < y && q > 0
    ensures Pow(x, q) < Pow(y, q)
  {
    PowBase(x, y, q - 1);
    NonLinear.MulMono(x, Pow(x, q - 1), Pow(y, q - 1));
    NonLinear.MulMono(Pow(y, q - 1), x + 1, y);
    NonLinear.Dist(x, 1, Pow(y, q - 1));
  }

  lemma {:induction false} PowPow(x: nat, m: nat, q: nat)
    ensures m * q >= 0 && Pow(x, m * q) == Pow(Pow(x, m), q)
    decreases q
  {
    NonLinear.MulMono(m, 0, q);
    if q > 0 {
      PowPow(x, m, q - 1);
      PowAdd(x, m, m * (q - 1));
      NonLinear.Dist(1, q - 1, m);
    }
  }

  /** x^m <= y^n and x^r <= y^s give x^(mq+r) <= y^(nq+s). */
  lemma Stretch(x: nat, m: nat, r: nat, y: nat, n: nat, s: nat, q: nat) returns (den: nat, num: nat)
    requires Pow(x, m) <= Pow(y, n) && Pow(x, r) <= Pow(y, s)
    ensures den == m * q + r && num == n * q + s && Pow(x, den) <= Pow(y, num)
  {
    PowPow(x, m, q);
    PowPow(y, n, q);
    PowBase(Pow(x, m), Pow(y, n), q);
    PowAdd(x, m * q, r);
    PowAdd(y, n * q, s);
    MulLe(Pow(x, m * q), Pow(y, n * q), Pow(x, r), Pow(y, s));
    den, num := m * q + r, n * q + s;
  }

  /** den digits of base x fit in num of base y, so n digits fit in n * num / den + 1. */
  lemma RatioFits(x: nat, den: nat, y: nat, num: nat, n: nat) returns (size: nat)
    requires den > 0 && y > 0 && Pow(x, den) <= Pow(y, num)
    ensures den * size - den <= num * n < den * size && Pow(x, n) <= Pow(y, size)
  {
    size := SizeFor(num, den, n);
    PowPow(x, den, n);
    PowPow(y, num, n);
    PowBase(Pow(x, den), Pow(y, num), n);
    PowMono(y, num * n, den * size);
    RootFits(x, den, y, n, size);
  }

  lemma SizeFor(num: nat, den: nat, n: nat) returns (size: nat)
    requires den > 0
    ensures 0 <= num * n && den * size - den <= num * n < den * size
  {
    NonLinear.MulMono(num, 0, n);
    NonLinear.DivNat(num * n, den);
    var q: nat := num * n / den;
    size := q + 1;
    NonLinear.Dist(q, 1, den);
  }

  lemma RootFits(x: nat, den: nat, y: nat, n: nat, size: nat)
    requires den > 0 && den * n >= 0 && den * size >= 0 && Pow(x, den * n) <= Pow(y, den * size)
    ensures Pow(x, n) <= Pow(y, size)
  {
    PowPow(x, n, den);
    PowPow(y, size, den);
    if Pow(x, n) > Pow(y, size) {
      PowBaseStrict(Pow(y, size), Pow(x, n), den);
      assert false;
    }
  }

  /** 256^50 <= 58^69, from 256^8 <= 58^11 and 256^2 <= 58^3. */
  lemma EncodeSize(n: nat) returns (size: nat)
    ensures 100 * size - 100 <= 138 * n < 100 * size && Pow(256, n) <= Pow(58, size)
  {
    EightBytes();
    var den, num := Stretch(256, 8, 2, 58, 11, 3, 6);
    size := RatioFits(256, den, 58, num, n);
  }

  lemma EightBytes()
    ensures Pow(256, 8) <= Pow(58, 11) && Pow(256, 2) <= Pow(58, 3)
  {
    assert Pow(256, 2) == 65536 && Pow(256, 8) == 18446744073709551616;
    assert Pow(58, 3) == 195112 && Pow(58, 11) == 24986644000165537792;
  }

  /** What EncodeBase58 reserves is enough. */
  lemma EncodeFits(n: nat)
    ensures Pow(256, n) <= Pow(58, n * 138 / 100 + 1)
  {
    var size := EncodeSize(n);
    assert size == n * 138 / 100 + 1;
  }

  lemma Tower(x: nat, m: nat, q: nat, r: nat) returns (k: nat)
    ensures k == m * q + r && Pow(x, k) == Pow(Pow(x, m), q) * Pow(x, r)
  {
    PowPow(x, m, q);
    PowAdd(x, m * q, r);
    k := m * q + r;
  }

  /** A block of digits that only just fits: 58^71 <= 256^52. */
  lemma TightBlock() returns (k: nat, l: nat)
    ensures Pow(58, k) <= Pow(256, l) && 2 * k == 142 && 2 * l == 104
  {
    k := Tower(58, 7, 10, 1);
    l := Tower(256, 4, 13, 0);
    assert Pow(58, 7) == 2207984167552 && Pow(58, 1) == 58;
    assert Pow(256, 4) == 4294967296 && Pow(256, 0) == 1;
    TightNumbers();
  }

  lemma TightNumbers()
    ensures Pow(2207984167552, 10) * 58 <= Pow(4294967296, 13)
  {
    assert Pow(2207984167552, 5) == 52478302028992644968172978478148648556151605660894866578604032;
    PowAdd(2207984167552, 5, 5);
    assert Pow(4294967296, 6) == 6277101735386680763835789423207666416102355444464034512896;
    PowAdd(4294967296, 6, 6);
    PowAdd(4294967296, 12, 1);
  }

  /** 58^1000 <= 256^733, from 58^71 <= 256^52 and 58^6 <= 256^5. */
  lemma DecodeSize(n: nat) returns (size: nat)
    ensures 2000 * size - 2000 <= 1466 * n < 2000 * size && Pow(58, n) <= Pow(256, size)
  {
    var k, l := TightBlock();
    assert Pow(58, 6) <= Pow(256, 5) by { SixDigits(); }
    var den, num := Stretch(58, k, 6, 256, l, 5, 14);
    size := RatioFits(58, den, 256, num, n);
  }

  lemma SixDigits()
    ensures Pow(58, 6) <= Pow(256, 5)
  {
    assert Pow(58, 6) == 38068692544 && Pow(256, 5) == 1099511627776;
  }

  /** What DecodeBase58 reserves is enough. */
  lemma DecodeFits(n: nat)
    ensures Pow(58, n) <= Pow(256, n * 733 / 1000 + 1)
  {
    var size := DecodeSize(n);
    assert size == n * 733 / 1000 + 1;
  }

  // ---------- the alphabet ----------

  /** pszBase58: the digits and letters without 0, I, O and l. */
  function Symbol(d: nat): char
    requires d < 58
  {
    if d <= 8 then ('1' as int + d) as char
    else if d <= 16 then ('A' as int + d - 9) as char
    else if d <= 21 then ('J' as int + d - 17) as char
    else if d <= 32 then ('P' as int + d - 22) as char
    else if d <= 43 then ('a' as int + d - 33) as char
    else ('m' as int + d - 44) as char
  }

  /** The alphabet written out. */
  lemma SymbolTable(d: nat)
    requires d < 58
    ensures Symbol(d) ==
            if d < 9 then "123456789"[d] else if d < 17 then "ABCDEFGH"[d - 9] else if d < 22 then "JKLMN"[d - 17]
            else if d < 33 then "PQRSTUVWXYZ"[d - 22] else if d < 44 then "abcdefghijk"[d - 33] else "mnopqrstuvwxyz"[d - 44]
  {
  }

  /** mapBase58: the value of a symbol, -1 for any other character. */
  function DigitOf(c: char): int {
    if '1' <= c <= '9' then c as int - '1' as int
    else if 'A' <= c <= 'H' then c as int - 'A' as int + 9
    else if 'J' <= c <= 'N' then c as int - 'J' as int + 17
    else if 'P' <= c <= 'Z' then c as int - 'P' as int + 22
    else if 'a' <= c <= 'k' then c as int - 'a' as int + 33
    else if 'm' <= c <= 'z' then c as int - 'm' as int + 44
    else -1
  }

  /** The blank and the codes 9 to 13. */
  predicate IsSpace(c: char)
    ensures IsSpace(c) <==> c as int == 32 || 9 <= c as int <= 13
  {
    c == ' ' || c == '\U{c}' || c == '\n' || c == '\r' || c == '\t' || c == '\U{b}'
  }

  predicate NotSpace(c: char) {
    !IsSpace(c)
  }

  predicate IsOne(c: char) {
    c == '1'
  }

  predicate IsZero(x: nat) {
    x == 0
  }

  lemma SymbolDigit(d: nat)
    requires d < 58
    ensures DigitOf(Symbol(d)) == d && !IsSpace(Symbol(d)) && (Symbol(d) == '1' <==> d == 0) && Symbol(d) != '\0'
  {
  }

  lemma DigitSymbol(c: char)
    ensures -1 <= DigitOf(c) < 58
    ensures DigitOf(c) >= 0 ==> Symbol(DigitOf(c)) == c && !IsSpace(c)
    ensures DigitOf(c) == 0 <==> c == '1'
  {
  }

  // ---------- what encoding and decoding mean ----------

  /** How many elements at the front satisfy p. */
  function Leading<T>(s: seq<T>, p: T -> bool): (n: nat)
    ensures n <= |s| && (forall i | 0 <= i < n :: p(s[i])) && (n < |s| ==> !p(s[n]))
  {
    if s == [] || !p(s[0]) then 0 else 1 + Leading(s[1..], p)
  }

  lemma LeadingIs<T>(s: seq<T>, p: T -> bool, n: nat)
    requires n <= |s| && (forall i | 0 <= i < n :: p(s[i])) && (n < |s| ==> !p(s[n]))
    ensures Leading(s, p) == n
  {
  }

  function Repeat<T>(x: T, n: nat): (r: seq<T>)
    ensures |r| == n && forall i | 0 <= i < n :: r[i] == x
  {
    seq(n, _ => x)
  }

  /** Symbols for digits given least significant first. */
  function Text(e: seq<nat>): (t: string)
    requires forall i | 0 <= i < |e| :: e[i] < 58
    ensures |t| == |e|
  {
    seq(|e|, i requires 0 <= i < |e| => Symbol(e[|e| - 1 - i]))
  }

  ghost predicate IsBytes(s: seq<nat>) {
    Digital(256, s)
  }

  /** A number in base 58, without leading zeros. */
  ghost function Written(n: nat): string {
    CanonOk(58, n);
    Text(Canon(58, n))
  }

  /** A leading 1 for every leading zero byte, then the rest as one number. */
  ghost function Encoded(input: seq<nat>): string
    requires IsBytes(input)
  {
    EncodedAs(Leading(input, IsZero), input[Leading(input, IsZero)..])
  }

  ghost function EncodedAs(z: nat, rest: seq<nat>): string
    requires IsBytes(rest)
  {
    HornerBound(256, rest);
    Repeat('1', z) + Written(Horner(256, rest))
  }

  lemma EncodedIs(z: nat, rest: seq<nat>, input: seq<nat>)
    requires IsBytes(rest) && (rest != [] ==> rest[0] != 0) && input == Repeat(0, z) + rest
    ensures IsBytes(input) && Encoded(input) == EncodedAs(z, rest)
  {
    assert IsBytes(input);
    LeadingIs(input, IsZero, z);
    assert input[z..] == rest;
  }

  /** The buffer holds v in its low `length` digits, without leading zeros. */
  ghost predicate Holds(b: nat, buffer: seq<nat>, length: nat, v: int) {
    && Digital(b, buffer) && length <= |buffer| && Val(b, buffer) == v
    && (length > 0 ==> buffer[length - 1] != 0) && forall i | length <= i < |buffer| :: buffer[i] == 0
  }

  lemma HoldsNothing(b: nat, size: nat)
    requires b > 0
    ensures Holds(b, Repeat(0, size), 0, 0)
  {
    ValZeros(b, Repeat(0, size), 0);
    assert Repeat(0, size)[..0] == [];
  }

  /** The digits in use are the canonical ones. */
  lemma HoldsCanon(b: nat, buffer: seq<nat>, length: nat, v: nat)
    requires b >= 2 && Holds(b, buffer, length, v)
    ensures buffer[..length] == Canon(b, v) && Digital(b, buffer[..length])
  {
    ValZeros(b, buffer, length);
    CanonOf(b, buffer[..length]);
  }

  /** A prefix never needs more room than the whole. */
  lemma RoomForPrefix(c: nat, s: seq<nat>, k: nat, room: nat)
    requires c > 0 && Digital(c, s) && k < |s| && Pow(c, |s|) <= room
    ensures 0 <= Horner(c, s[..k + 1]) < room && Horner(c, s[..k + 1]) == c * Horner(c, s[..k]) + s[k]
  {
    assert s[..k + 1][..k] == s[..k];
    HornerBound(c, s[..k + 1]);
    PowMono(c, k + 1, |s|);
  }

  // "b58 = b58 * 256 + ch" for every byte
  method ConvertBytes(bytes: seq<nat>) returns (b58: seq<nat>, length: nat)
    requires IsBytes(bytes)
    ensures Holds(58, b58, length, Horner(256, bytes))
  {
    var size := |bytes| * 138 / 100 + 1;
    b58 := Repeat(0, size);
    length := 0;
    HoldsNothing(58, size);
    EncodeFits(|bytes|);
    for k := 0 to |bytes|
      invariant |b58| == size && Holds(58, b58, length, Horner(256, bytes[..k]))
    {
      RoomForPrefix(256, bytes, k, Pow(58, size));
      b58, length := MulAdd(58, b58, length, 256, bytes[k]);
    }
    assert bytes[..|bytes|] == bytes;
  }

  // EncodeBase58; the digits in use have no leading zero, so there is none to skip
  method EncodeBase58(input: seq<nat>) returns (str: string)
    requires IsBytes(input)
    ensures str == Encoded(input)
  {
    var zeroes := Leading(input, IsZero);
    var b58, length := ConvertBytes(input[zeroes..]);
    HornerBound(256, input[zeroes..]);
    HoldsCanon(58, b58, length, Horner(256, input[zeroes..]));
    str := Repeat('1', zeroes) + Text(b58[..length]);
  }

  // ---------- decoding ----------

  /** The parts of a string: after the leading spaces, the 1s, the word, and what follows the word. */
  function AfterSpaces(s: string): string {
    s[Leading(s, IsSpace)..]
  }

  function Ones(s: string): nat {
    Leading(AfterSpaces(s), IsOne)
  }

  function AfterOnes(s: string): string {
    AfterSpaces(s)[Ones(s)..]
  }

  function Word(s: string): string {
    AfterOnes(s)[..Leading(AfterOnes(s), NotSpace)]
  }

  function AfterWord(s: string): string {
    AfterOnes(s)[|Word(s)|..]
  }

  predicate AllDigits(w: string) {
    forall i | 0 <= i < |w| :: DigitOf(w[i]) >= 0
  }

  ghost function Values(w: string): (d: seq<nat>)
    requires AllDigits(w)
    ensures |d| == |w| && Digital(58, d)
  {
    var d: seq<nat> := seq(|w|, i requires 0 <= i < |w| => DigitOf(w[i]));
    assert Digital(58, d) by {
      forall i | 0 <= i < |d| ensures d[i] < 58 { DigitSymbol(w[i]); }
    }
    d
  }

  ghost function Number(w: string): (n: nat)
    requires AllDigits(w)
  {
    HornerBound(58, Values(w));
    Horner(58, Values(w))
  }

  ghost predicate WordFits(w: string, zeroes: nat, maxLen: nat) {
    AllDigits(w) && zeroes + |Canon(256, Number(w))| <= maxLen
  }

  ghost function Decoded(s: string, maxLen: nat): Option<seq<nat>> {
    if '\0' !in s && WordFits(Word(s), Ones(s), maxLen) && Leading(AfterWord(s), IsSpace) == |AfterWord(s)| then
      Some(Repeat(0, Ones(s)) + Reversed(Canon(256, Number(Word(s)))))
    else
      None
  }

  lemma {:induction false} HornerGrows(c: nat, s: seq<nat>, k: nat)
    requires c > 0 && Digital(c, s) && k <= |s|
    ensures 0 <= Horner(c, s[..k]) <= Horner(c, s)
    decreases |s| - k
  {
    if k == |s| {
      assert s[..k] == s;
      HornerBound(c, s);
    } else {
      HornerGrows(c, s, k + 1);
      HornerBound(c, s[..k]);
      assert s[..k + 1][..k] == s[..k];
      NonLinear.MulGrows(Horner(c, s[..k]), c);
    }
  }

  lemma PrefixTooLong(w: string, k: nat, zeroes: nat, maxLen: nat)
    requires k <= |w| && AllDigits(w[..k]) && zeroes + |Canon(256, Number(w[..k]))| > maxLen
    ensures !WordFits(w, zeroes, maxLen)
  {
    if AllDigits(w) {
      assert Values(w)[..k] == Values(w[..k]);
      HornerGrows(58, Values(w), k);
      CanonGrows(256, Number(w[..k]), Number(w));
    }
  }

  lemma NumberStep(w: string, k: nat, size: nat)
    requires k < |w| && AllDigits(w[..k + 1]) && k + 1 <= size
    ensures AllDigits(w[..k]) && Number(w[..k + 1]) == 58 * Number(w[..k]) + DigitOf(w[k])
    ensures Number(w[..k + 1]) < Pow(256, size * 733 / 1000 + 1)
  {
    assert w[..k + 1][..k] == w[..k];
    forall i | 0 <= i < k ensures DigitOf(w[..k][i]) >= 0 {
      assert w[..k][i] == w[..k + 1][i];
    }
    var d := Values(w[..k + 1]);
    assert d[..k] == Values(w[..k]);
    HornerBound(58, d);
    PowMono(58, k + 1, size);
    DecodeFits(size);
  }

  // the loop over the word, in a buffer sized for everything up to the end of the string
  method ConvertWord(w: string, zeroes: nat, maxLen: nat, strlen: nat) returns (ok: bool, b256: seq<nat>, length: nat)
    requires |w| <= strlen && zeroes <= maxLen
    ensures ok <==> WordFits(w, zeroes, maxLen)
    ensures ok ==> Holds(256, b256, length, Number(w))
  {
    var size := strlen * 733 / 1000 + 1;
    b256 := Repeat(0, size);
    length := 0;
    HoldsNothing(256, size);
    for k := 0 to |w|
      invariant AllDigits(w[..k]) && |b256| == size && Holds(256, b256, length, Number(w[..k]))
      invariant zeroes + length <= maxLen
    {
      var digit := DigitOf(w[k]);
      if digit == -1 {
        return false, b256, length;
      }
      DigitSymbol(w[k]);
      NumberStep(w, k, strlen);
      b256, length := MulAdd(256, b256, length, 58, digit);
      HoldsCanon(256, b256, length, Number(w[..k + 1]));
      if length + zeroes > maxLen {
        PrefixTooLong(w, k + 1, zeroes, maxLen);
        return false, b256, length;
      }
    }
    assert w[..|w|] == w;
    HoldsCanon(256, b256, length, Number(w));
    return true, b256, length;
  }

  // DecodeBase58
  method DecodeBase58(s: string, maxLen: nat) returns (r: Option<seq<nat>>)
    ensures r == Decoded(s, maxLen)
  {
    if '\0' in s {
      return None;
    }
    var zeroes := Ones(s);
    if zeroes > maxLen {
      return None;
    }
    var w := Word(s);
    var ok, b256, length := ConvertWord(w, zeroes, maxLen, |AfterOnes(s)|);
    if !ok {
      return None;
    }
    if Leading(AfterWord(s), IsSpace) != |AfterWord(s)| {
      return None;
    }
    HoldsCanon(256, b256, length, Number(w));
    return Some(Repeat(0, zeroes) + Reversed(b256[..length]));
  }

  // ---------- round trips ----------

  /** A word and the digits it was written from. */
  lemma TextValues(e: seq<nat>)
    requires Digital(58, e)
    ensures AllDigits(Text(e)) && Values(Text(e)) == Reversed(e)
  {
    forall i | 0 <= i < |e| ensures DigitOf(Text(e)[i]) == e[|e| - 1 - i] {
      SymbolDigit(e[|e| - 1 - i]);
    }
  }

  lemma ValuesText(w: string)
    requires AllDigits(w)
    ensures Text(Reversed(Values(w))) == w
  {
    forall i | 0 <= i < |w| ensures Text(Reversed(Values(w)))[i] == w[i] {
      DigitSymbol(w[i]);
    }
  }

  /** How a string without spaces splits up. */
  lemma PlainParts(z: nat, e: seq<nat>)
    requires Canonical(58, e)
    ensures var s := Repeat('1', z) + Text(e);
            AfterSpaces(s) == s && Ones(s) == z && Word(s) == Text(e) && AfterWord(s) == [] && '\0' !in s
  {
    var s := Repeat('1', z) + Text(e);
    PlainChars(z, e);
    LeadingIs(s, IsSpace, 0);
    LeadingIs(s, IsOne, z);
    assert s[z..] == Text(e);
    LeadingIs(Text(e), NotSpace, |e|);
  }

  lemma PlainChars(z: nat, e: seq<nat>)
    requires Canonical(58, e)
    ensures var s := Repeat('1', z) + Text(e);
            forall i | 0 <= i < |s| :: !IsSpace(s[i]) && s[i] != '\0'
    ensures forall i | 0 <= i < |e| :: !IsSpace(Text(e)[i])
    ensures e != [] ==> Text(e)[0] != '1'
  {
    forall i | 0 <= i < |e| ensures !IsSpace(Text(e)[i]) && Text(e)[i] != '\0' {
      SymbolDigit(e[|e| - 1 - i]);
    }
    if e != [] { SymbolDigit(e[|e| - 1]); }
  }

  lemma TextNumber(e: seq<nat>)
    requires Digital(58, e)
    ensures AllDigits(Text(e)) && Number(Text(e)) == Val(58, e)
  {
    TextValues(e);
    HornerIsVal(58, Reversed(e));
    ReversedTwice(e);
  }

  /** Bytes without a leading zero are the canonical notation of their number. */
  lemma BytesCanon(rest: seq<nat>)
    requires IsBytes(rest) && (rest != [] ==> rest[0] != 0)
    ensures 0 <= Horner(256, rest) && Canon(256, Horner(256, rest)) == Reversed(rest)
  {
    HornerBound(256, rest);
    HornerIsVal(256, rest);
    CanonOf(256, Reversed(rest));
  }

  lemma EncodedShape(input: seq<nat>) returns (z: nat, n: nat)
    requires IsBytes(input)
    ensures Encoded(input) == Repeat('1', z) + Written(n)
    ensures z + |Canon(256, n)| == |input| && Repeat(0, z) + Reversed(Canon(256, n)) == input
  {
    z := Leading(input, IsZero);
    var rest := input[z..];
    BytesCanon(rest);
    n := Horner(256, rest);
    ReversedTwice(rest);
    assert Repeat(0, z) + rest == input;
  }

  /** Decoding undoes encoding, for any bytes that fit. */
  lemma DecodeEncoded(input: seq<nat>, maxLen: nat)
    requires IsBytes(input) && |input| <= maxLen
    ensures Decoded(Encoded(input), maxLen) == Some(input)
  {
    var z, n := EncodedShape(input);
    DecodeParts(z, n, maxLen);
  }

  lemma DecodeParts(z: nat, n: nat, maxLen: nat)
    ensures Decoded(Repeat('1', z) + Written(n), maxLen) ==
            if z + |Canon(256, n)| <= maxLen then Some(Repeat(0, z) + Reversed(Canon(256, n))) else None
  {
    CanonOk(58, n);
    PlainParts(z, Canon(58, n));
    TextNumber(Canon(58, n));
  }

  /** The string without the spaces around it. */
  function Trimmed(s: string): string {
    Repeat('1', Ones(s)) + Word(s)
  }

  lemma TrimmedIsMiddle(s: string)
    ensures s == s[..Leading(s, IsSpace)] + Trimmed(s) + AfterWord(s)
  {
    CutSpaces(s);
    CutOnes(s);
    CutWord(s);
    Regroup(s, s[..Leading(s, IsSpace)], AfterSpaces(s), Repeat('1', Ones(s)), AfterOnes(s), Word(s), AfterWord(s));
  }

  lemma CutSpaces(s: string)
    ensures s == s[..Leading(s, IsSpace)] + AfterSpaces(s)
  {
  }

  lemma CutOnes(s: string)
    ensures AfterSpaces(s) == Repeat('1', Ones(s)) + AfterOnes(s)
  {
    OnesFirst(AfterSpaces(s));
  }

  lemma CutWord(s: string)
    ensures AfterOnes(s) == Word(s) + AfterWord(s)
  {
  }

  lemma OnesFirst(r: string)
    ensures var z := Leading(r, IsOne); r == Repeat('1', z) + r[z..]
  {
  }

  lemma Regroup(s: string, a: string, r1: string, b: string, r2: string, c: string, d: string)
    requires s == a + r1 && r1 == b + r2 && r2 == c + d
    ensures s == a + (b + c) + d
  {
  }

  /** A word that follows the 1s is canonical. */
  lemma WordCanon(s: string)
    requires AllDigits(Word(s))
    ensures Canon(58, Number(Word(s))) == Reversed(Values(Word(s)))
  {
    var w := Word(s);
    if w != [] {
      assert w[0] == AfterOnes(s)[0] == AfterSpaces(s)[Ones(s)];
      DigitSymbol(w[0]);
    }
    HornerBound(58, Values(w));
    HornerIsVal(58, Values(w));
    CanonOf(58, Reversed(Values(w)));
  }

  lemma NumberOfBytes(x: seq<nat>)
    requires Canonical(256, x)
    ensures IsBytes(Reversed(x)) && Horner(256, Reversed(x)) == Val(256, x)
  {
    HornerIsVal(256, Reversed(x));
    ReversedTwice(x);
  }

  lemma WrittenWord(s: string)
    requires AllDigits(Word(s))
    ensures Written(Number(Word(s))) == Word(s)
  {
    WordCanon(s);
    ValuesText(Word(s));
  }

  /** Encoding what a string decodes to gives the string without its surrounding spaces. */
  lemma EncodeDecoded(s: string, maxLen: nat)
    requires Decoded(s, maxLen).Some?
    ensures var v := Decoded(s, maxLen).value;
            IsBytes(v) && |v| <= maxLen && Encoded(v) == Trimmed(s)
    ensures var before, after := s[..Leading(s, IsSpace)], AfterWord(s);
            s == before + Trimmed(s) + after && (forall c | c in before + after :: IsSpace(c))
  {
    TrimmedIsMiddle(s);
    var n := Number(Word(s));
    var x := Canon(256, n);
    CanonOk(256, n);
    NumberOfBytes(x);
    EncodedIs(Ones(s), Reversed(x), Repeat(0, Ones(s)) + Reversed(x));
    WrittenWord(s);
  }
}
