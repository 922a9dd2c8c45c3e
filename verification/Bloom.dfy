/** The rolling bloom filter (src/bloom.h, src/bloom.cpp). */
module Bloom {
  import NonLinear

  const TWO32 := 0x1_0000_0000

  // ---------- 64-bit words as their bits, least significant first ----------

  const BITS := 64

  type Word = seq<bool>

  predicate IsWord(w: Word) {
    |w| == BITS
  }

  function And(a: Word, b: Word): (r: Word)
    requires IsWord(a) && IsWord(b)
    ensures IsWord(r)
  {
    seq(BITS, i requires 0 <= i < BITS => a[i] && b[i])
  }

  function Or(a: Word, b: Word): (r: Word)
    requires IsWord(a) && IsWord(b)
    ensures IsWord(r)
  {
    seq(BITS, i requires 0 <= i < BITS => a[i] || b[i])
  }

  function Xor(a: Word, b: Word): (r: Word)
    requires IsWord(a) && IsWord(b)
    ensures IsWord(r)
  {
    seq(BITS, i requires 0 <= i < BITS => a[i] != b[i])
  }

  function Not(a: Word): (r: Word)
    requires IsWord(a)
    ensures IsWord(r)
  {
    seq(BITS, i requires 0 <= i < BITS => !a[i])
  }

  /** b << bit, for a single bit b. */
  function Shifted(b: bool, bit: nat): (r: Word)
    requires bit < BITS
    ensures IsWord(r)
  {
    seq(BITS, i requires 0 <= i < BITS => b && i == bit)
  }

  /** 0 - b, for a single bit b: all bits equal to it. */
  function Spread(b: bool): (r: Word)
    ensures IsWord(r)
  {
    seq(BITS, _ => b)
  }

  /** The generation, 1 to 3, that a cell of two bits holds; 0 when the cell is unset. */
  function CellValue(p1: Word, p2: Word, bit: nat): nat
    requires IsWord(p1) && IsWord(p2) && bit < BITS
  {
    (if p1[bit] then 1 else 0) + (if p2[bit] then 2 else 0)
  }

  // ---------- the cells that hashes select ----------

  predicate IsData(data: seq<Word>) {
    |data| > 0 && |data| % 2 == 0 && forall k | 0 <= k < |data| :: IsWord(data[k])
  }

  /** A 32-bit x scaled into 0..n-1. */
  function FastMod(x: nat, n: nat): (r: nat)
    requires x < TWO32 && n > 0
    ensures r < n
  {
    NonLinear.MulMono(n, x + 1, TWO32);
    NonLinear.MulMono(n, 0, x);
    NonLinear.Dist(x, 1, n);
    x * n / TWO32
  }

  /** Word pair of the cell a hash selects: FastMod with the lowest bit ignored. */
  function Pair(h: nat, size: nat): (r: nat)
    requires h < TWO32 && size > 0 && size % 2 == 0
    ensures 2 * r + 1 < size
  {
    FastMod(h, size) / 2
  }

  /** No cell is left out: some hash selects it. */
  lemma EveryCellUsed(size: nat, q: nat, bit: nat)
    requires size > 0 && size % 2 == 0 && size * BITS <= TWO32 && 2 * q + 1 < size && bit < BITS
    ensures exists h: nat :: h < TWO32 && Pair(h, size) == q && h % BITS == bit
  {
    var lo := (2 * q * TWO32 + size - 1) / size;
    var rest := (2 * q * TWO32 + size - 1) % size;
    assert lo * size == 2 * q * TWO32 + size - 1 - rest;
    var h := lo + (bit - lo) % BITS;
    assert h % BITS == bit;
    assert lo >= 0 by { NonLinear.DivNat(2 * q * TWO32 + size - 1, size); }
    CellOfHash(size, q, lo, size - 1 - rest, h);
  }

  lemma CellOfHash(size: nat, q: nat, lo: nat, over: nat, h: nat)
    requires size > 0 && size % 2 == 0 && size * BITS <= TWO32 && 2 * q + 1 < size
    requires lo * size == 2 * q * TWO32 + over && over < size && lo <= h < lo + BITS
    ensures h < TWO32 && Pair(h, size) == q
  {
    var d := h - lo;
    assert h * size == 2 * q * TWO32 + over + d * size by { NonLinear.Dist(lo, d, size); }
    NonLinear.MulMono(size, d, BITS - 1);
    assert over + d * size < TWO32;
    NonLinear.MulMono(TWO32, 2 * q + 1, size);
    NonLinear.CancelLess(h, TWO32, size);
    NonLinear.DivMod(h * size, TWO32, 2 * q, over + d * size);
  }

  /** What the cell selected by hash h holds. */
  ghost function Holds(data: seq<Word>, h: nat): nat
    requires IsData(data) && h < TWO32
  {
    var q := Pair(h, |data|);
    CellValue(data[2 * q], data[2 * q + 1], h % BITS)
  }

  /** Two hashes select one cell. */
  ghost predicate SameCell(h: nat, k: nat, size: nat)
    requires h < TWO32 && k < TWO32 && size > 0 && size % 2 == 0
  {
    Pair(h, size) == Pair(k, size) && h % BITS == k % BITS
  }

  // writing one cell
  method Mark(data: seq<Word>, h: nat, generation: nat) returns (data': seq<Word>)
    requires IsData(data) && h < TWO32 && 1 <= generation <= 3
    ensures IsData(data') && |data'| == |data|
    ensures forall k: nat | k < TWO32 :: Holds(data', k) == if SameCell(h, k, |data|) then generation else Holds(data, k)
  {
    var bit := h % BITS;
    var pos := FastMod(h, |data|);
    var even, odd := pos - pos % 2, pos - pos % 2 + 1;
    data' := data[even := Or(And(data[even], Not(Shifted(true, bit))), Shifted(generation % 2 == 1, bit))];
    data' := data'[odd := Or(And(data'[odd], Not(Shifted(true, bit))), Shifted(generation / 2 == 1, bit))];
    forall k: nat | k < TWO32 ensures Holds(data', k) == if SameCell(h, k, |data|) then generation else Holds(data, k) {
      MarkKeeps(data, data', even, bit, generation, k);
    }
  }

  lemma MarkKeeps(data: seq<Word>, data': seq<Word>, even: nat, bit: nat, generation: nat, k: nat)
    requires IsData(data) && even + 1 < |data| == |data'| && even % 2 == 0 && bit < BITS && 1 <= generation <= 3 && k < TWO32
    requires data' == data[even := Or(And(data[even], Not(Shifted(true, bit))), Shifted(generation % 2 == 1, bit))]
                          [even + 1 := Or(And(data[even + 1], Not(Shifted(true, bit))), Shifted(generation / 2 == 1, bit))]
    ensures IsData(data')
    ensures Holds(data', k) == if 2 * Pair(k, |data|) == even && k % BITS == bit then generation else Holds(data, k)
  {
  }

  // the wipe of one generation
  method Wipe(data: seq<Word>, generation: nat) returns (data': seq<Word>)
    requires IsData(data) && 1 <= generation <= 3
    ensures IsData(data') && |data'| == |data|
    ensures forall k: nat | k < TWO32 :: Holds(data', k) == if Holds(data, k) == generation then 0 else Holds(data, k)
  {
    var mask1, mask2 := Spread(generation % 2 == 1), Spread(generation / 2 == 1);
    data' := data;
    var p := 0;
    while p < |data|
      invariant 0 <= p <= |data| == |data'| && p % 2 == 0 && IsData(data')
      invariant forall k | p <= k < |data| :: data'[k] == data[k]
      invariant forall q, i | 0 <= q && 2 * q + 1 < p && 0 <= i < BITS ::
        WipedCell(data, data', generation, q, i)
    {
      ghost var before := data';
      var p1, p2 := data'[p], data'[p + 1];
      var mask := Or(Xor(p1, mask1), Xor(p2, mask2));
      data' := data'[p := And(p1, mask)];
      data' := data'[p + 1 := And(p2, mask)];
      forall q, i | 0 <= q && 2 * q + 1 < p + 2 && 0 <= i < BITS ensures WipedCell(data, data', generation, q, i) {
        if 2 * q == p {
          WipeWords(p1, p2, generation, i);
        } else {
          assert WipedCell(data, before, generation, q, i);
        }
      }
      p := p + 2;
    }
    forall k: nat | k < TWO32
      ensures Holds(data', k) == if Holds(data, k) == generation then 0 else Holds(data, k)
    {
      assert WipedCell(data, data', generation, Pair(k, |data|), k % BITS);
    }
  }

  lemma WipeWords(p1: Word, p2: Word, generation: nat, i: nat)
    requires IsWord(p1) && IsWord(p2) && 1 <= generation <= 3 && i < BITS
    ensures var mask := Or(Xor(p1, Spread(generation % 2 == 1)), Xor(p2, Spread(generation / 2 == 1)));
            CellValue(And(p1, mask), And(p2, mask), i) ==
            if CellValue(p1, p2, i) == generation then 0 else CellValue(p1, p2, i)
  {
  }

  ghost predicate WipedCell(data: seq<Word>, data': seq<Word>, generation: nat, q: nat, i: nat)
    requires IsData(data) && IsData(data') && |data| == |data'| && 2 * q + 1 < |data| && i < BITS
  {
    var was := CellValue(data[2 * q], data[2 * q + 1], i);
    CellValue(data'[2 * q], data'[2 * q + 1], i) == if was == generation then 0 else was
  }

  // ---------- the filter ----------

  type Key = seq<int>
  type HashFunction = (nat, nat, Key) -> nat

  ghost predicate HashOk(H: HashFunction) {
    forall n, tweak, key :: H(n, tweak, key) < TWO32
  }

  /** The generation numbers go round: 1, 2, 3, 1, ... */
  function NextGeneration(g: nat): nat {
    if g + 1 == 4 then 1 else g + 1
  }

  function LastGeneration(g: nat): nat {
    if g <= 1 then 3 else g - 1
  }

  /** The number of the generation in which the key `age` insertions back was inserted. */
  ghost function GenerationAt(age: nat, thisGeneration: nat, perGeneration: nat, generation: nat): nat {
    if age < thisGeneration then generation
    else if age < thisGeneration + perGeneration then LastGeneration(generation)
    else LastGeneration(LastGeneration(generation))
  }

  /** How many of so many keys are in the current generation: one to a full generation, once there are any. */
  function InGeneration(keys: nat, perGeneration: nat): (r: nat)
    requires perGeneration >= 1
    ensures r <= keys && r <= perGeneration
  {
    if keys == 0 then 0 else if keys <= perGeneration then keys else InGeneration(keys - perGeneration, perGeneration)
  }

  lemma {:induction false} NextInGeneration(keys: nat, perGeneration: nat)
    requires perGeneration >= 1
    ensures InGeneration(keys + 1, perGeneration) ==
            1 + if InGeneration(keys, perGeneration) == perGeneration then 0 else InGeneration(keys, perGeneration)
    decreases keys
  {
    if keys > perGeneration { NextInGeneration(keys - perGeneration, perGeneration); }
  }

  /** The number of words, of hash functions, and the tweak. */
  datatype Shape = Shape(size: nat, nHashFuncs: nat, nTweak: nat)

  /** The key selects the cell of hash k. */
  ghost predicate Touches(H: HashFunction, sh: Shape, key: Key, k: nat)
    requires HashOk(H) && sh.size > 0 && sh.size % 2 == 0 && k < TWO32
  {
    exists n: nat :: n < sh.nHashFuncs && SameCell(H(n, sh.nTweak, key), k, sh.size)
  }

  /** How many of the latest keys count. */
  ghost function Counting(keys: seq<Key>, thisGeneration: nat, perGeneration: nat): nat {
    var kept := thisGeneration + 2 * perGeneration;
    if kept < |keys| then kept else |keys|
  }

  /** What the cell of hash k should hold: the generation of the latest key, from `age` insertions back on, that
      selects it, as long as that key counts. */
  ghost function CellOf(H: HashFunction, sh: Shape, keys: seq<Key>, thisGeneration: nat, perGeneration: nat, generation: nat, k: nat, age: nat): nat
    requires HashOk(H) && sh.size > 0 && sh.size % 2 == 0 && k < TWO32
    decreases |keys| - age
  {
    if age >= Counting(keys, thisGeneration, perGeneration) then 0
    else if Touches(H, sh, keys[|keys| - 1 - age], k) then GenerationAt(age, thisGeneration, perGeneration, generation)
    else CellOf(H, sh, keys, thisGeneration, perGeneration, generation, k, age + 1)
  }

  /** Every cell of the key is set, in whichever generation. */
  ghost predicate AllSet(H: HashFunction, data: seq<Word>, nHashFuncs: nat, nTweak: nat, key: Key)
    requires IsData(data) && HashOk(H)
  {
    forall n: nat | n < nHashFuncs :: Holds(data, H(n, nTweak, key)) != 0
  }

  // the loop of insert over the hash functions
  method MarkAll(H: HashFunction, data: seq<Word>, nHashFuncs: nat, nTweak: nat, key: Key, generation: nat)
    returns (data': seq<Word>)
    requires HashOk(H) && IsData(data) && 1 <= generation <= 3
    ensures IsData(data') && |data'| == |data|
    ensures forall k: nat | k < TWO32 ::
              Holds(data', k) == if Touches(H, Shape(|data|, nHashFuncs, nTweak), key, k) then generation else Holds(data, k)
  {
    data' := data;
    for n := 0 to nHashFuncs
      invariant IsData(data') && |data'| == |data|
      invariant forall k: nat | k < TWO32 ::
                  Holds(data', k) == if Touches(H, Shape(|data|, n, nTweak), key, k) then generation else Holds(data, k)
    {
      ghost var before := data';
      data' := Mark(data', H(n, nTweak, key), generation);
      forall k: nat | k < TWO32
        ensures Holds(data', k) == if Touches(H, Shape(|data|, n + 1, nTweak), key, k) then generation else Holds(data, k)
      {
        TouchesNext(H, Shape(|data|, n, nTweak), key, k);
      }
    }
  }

  lemma TouchesNext(H: HashFunction, sh: Shape, key: Key, k: nat)
    requires HashOk(H) && sh.size > 0 && sh.size % 2 == 0 && k < TWO32
    ensures Touches(H, sh.(nHashFuncs := sh.nHashFuncs + 1), key, k) <==>
            Touches(H, sh, key, k) || SameCell(H(sh.nHashFuncs, sh.nTweak, key), k, sh.size)
  {
    if Touches(H, sh, key, k) {
      var n: nat :| n < sh.nHashFuncs && SameCell(H(n, sh.nTweak, key), k, sh.size);
      assert n < sh.nHashFuncs + 1;
    }
  }

  /** A set cell is one that a key that counts selects. */
  lemma {:induction false} CellSet(H: HashFunction, sh: Shape, keys: seq<Key>, thisG: nat, perG: nat, generation: nat, k: nat, age: nat)
    requires HashOk(H) && sh.size > 0 && sh.size % 2 == 0 && k < TWO32 && 1 <= generation <= 3
    requires age <= Counting(keys, thisG, perG)
    ensures CellOf(H, sh, keys, thisG, perG, generation, k, age) != 0 <==>
            Selected(H, sh, keys, |keys| - Counting(keys, thisG, perG), |keys| - age, k)
    decreases |keys| - age
  {
    if age < Counting(keys, thisG, perG) {
      CellSet(H, sh, keys, thisG, perG, generation, k, age + 1);
      SelectedNext(H, sh, keys, |keys| - Counting(keys, thisG, perG), |keys| - age - 1, k);
    }
  }

  /** One of the keys from lo up to hi selects the cell. */
  ghost predicate Selected(H: HashFunction, sh: Shape, keys: seq<Key>, lo: nat, hi: nat, k: nat)
    requires HashOk(H) && sh.size > 0 && sh.size % 2 == 0 && k < TWO32 && hi <= |keys|
  {
    exists i :: lo <= i < hi && Touches(H, sh, keys[i], k)
  }

  lemma SelectedNext(H: HashFunction, sh: Shape, keys: seq<Key>, lo: nat, hi: nat, k: nat)
    requires HashOk(H) && sh.size > 0 && sh.size % 2 == 0 && k < TWO32 && lo <= hi < |keys|
    ensures Selected(H, sh, keys, lo, hi + 1, k) <==> Selected(H, sh, keys, lo, hi, k) || Touches(H, sh, keys[hi], k)
  {
    if Selected(H, sh, keys, lo, hi, k) {
      var i :| lo <= i < hi && Touches(H, sh, keys[i], k);
      assert i < hi + 1;
    }
  }

  /** The cells when a full generation becomes the last one: those of the generation before the last are gone. */
  lemma {:induction false} CellAges(H: HashFunction, sh: Shape, keys: seq<Key>, perG: nat, generation: nat, k: nat, age: nat)
    requires HashOk(H) && sh.size > 0 && sh.size % 2 == 0 && k < TWO32 && 1 <= generation <= 3
    ensures var was := CellOf(H, sh, keys, perG, perG, generation, k, age);
            CellOf(H, sh, keys, 0, perG, NextGeneration(generation), k, age) == if was == NextGeneration(generation) then 0 else was
    decreases |keys| - age
  {
    if age < Counting(keys, perG, perG) {
      CellAges(H, sh, keys, perG, generation, k, age + 1);
    }
  }

  /** A new key moves the others back by one. */
  lemma {:induction false} CellShifts(H: HashFunction, sh: Shape, keys: seq<Key>, key: Key, thisG: nat, perG: nat, generation: nat, k: nat, age: nat)
    requires HashOk(H) && sh.size > 0 && sh.size % 2 == 0 && k < TWO32
    ensures CellOf(H, sh, keys + [key], thisG + 1, perG, generation, k, age + 1) == CellOf(H, sh, keys, thisG, perG, generation, k, age)
    decreases |keys| - age
  {
    if age < Counting(keys, thisG, perG) {
      assert (keys + [key])[|keys| - 1 - age] == keys[|keys| - 1 - age];
      CellShifts(H, sh, keys, key, thisG, perG, generation, k, age + 1);
    }
  }

  /** Every cell of the key is also a cell of one of the latest keys that count. */
  ghost predicate Shared(H: HashFunction, sh: Shape, keys: seq<Key>, counting: nat, key: Key)
    requires HashOk(H) && sh.size > 0 && sh.size % 2 == 0 && counting <= |keys|
  {
    forall n: nat | n < sh.nHashFuncs :: Selected(H, sh, keys, |keys| - counting, |keys|, H(n, sh.nTweak, key))
  }

  lemma OwnCells(H: HashFunction, sh: Shape, key: Key, n: nat)
    requires HashOk(H) && sh.size > 0 && sh.size % 2 == 0 && n < sh.nHashFuncs
    ensures Touches(H, sh, key, H(n, sh.nTweak, key))
  {
    assert SameCell(H(n, sh.nTweak, key), H(n, sh.nTweak, key), sh.size);
  }

  class RollingBloomFilter {
    var nEntriesPerGeneration: nat
    var nEntriesThisGeneration: nat
    var nGeneration: nat
    var data: seq<Word>
    var nTweak: nat
    var nHashFuncs: nat
    /** The keys inserted since the last reset. */
    ghost var inserted: seq<Key>

    ghost function Now(): Shape
      reads this
    {
      Shape(|data|, nHashFuncs, nTweak)
    }

    /** How many of the latest keys are remembered: those of the current and the last two generations. */
    ghost function Kept(): nat
      reads this
    {
      Counting(inserted, nEntriesThisGeneration, nEntriesPerGeneration)
    }

    ghost predicate Valid(H: HashFunction)
      reads this
    {
      Sound(H) && nEntriesThisGeneration == InGeneration(|inserted|, nEntriesPerGeneration)
    }

    ghost predicate CellOk(H: HashFunction, k: nat)
      requires HashOk(H) && IsData(data) && k < TWO32
      reads this
    {
      Holds(data, k) == CellOf(H, Now(), inserted, nEntriesThisGeneration, nEntriesPerGeneration, nGeneration, k, 0)
    }

    // the sizes that come out of floating-point arithmetic are parameters
    constructor (H: HashFunction, nElements: nat, hashFuncs: nat, nFilterBits: nat, tweak: nat)
      requires HashOk(H) && nElements >= 1 && nFilterBits >= 1
      ensures Valid(H) && inserted == [] && nEntriesPerGeneration == (nElements + 1) / 2
      ensures Now() == Shape((nFilterBits + 63) / 64 * 2, hashFuncs, tweak)
    {
      nHashFuncs := hashFuncs;
      nEntriesPerGeneration := (nElements + 1) / 2;
      data := seq((nFilterBits + 63) / 64 * 2, _ => Spread(false));
      nTweak := tweak;
      nEntriesThisGeneration := 0;
      nGeneration := 1;
      inserted := [];
    }

    method Reset(H: HashFunction, tweak: nat)
      requires Valid(H)
      modifies this
      ensures Valid(H) && inserted == []
      ensures nEntriesPerGeneration == old(nEntriesPerGeneration) && Now() == old(Now()).(nTweak := tweak)
    {
      nTweak := tweak;
      nEntriesThisGeneration := 0;
      nGeneration := 1;
      data := seq(|data|, _ => Spread(false));
      inserted := [];
    }

    /** All but the number of keys in the current generation, which is 0 while insert begins a new one. */
    ghost predicate Sound(H: HashFunction)
      reads this
    {
      && HashOk(H) && IsData(data) && 1 <= nGeneration <= 3
      && 1 <= nEntriesPerGeneration && nEntriesThisGeneration <= nEntriesPerGeneration
      && forall k: nat | k < TWO32 :: CellOk(H, k)
    }

    // the start of insert: a full generation makes room for the next one
    method NewGeneration(H: HashFunction)
      requires Sound(H) && nEntriesThisGeneration == nEntriesPerGeneration
      modifies this
      ensures Sound(H) && nEntriesThisGeneration == 0
      ensures inserted == old(inserted) && nEntriesPerGeneration == old(nEntriesPerGeneration)
      ensures nHashFuncs == old(nHashFuncs) && nTweak == old(nTweak) && |data| == |old(data)|
    {
      nEntriesThisGeneration := 0;
      nGeneration := nGeneration + 1;
      if nGeneration == 4 {
        nGeneration := 1;
      }
      data := Wipe(data, nGeneration);
      forall k: nat | k < TWO32 ensures CellOk(H, k) {
        assert old(CellOk(H, k));
        CellAges(H, Now(), inserted, nEntriesPerGeneration, old(nGeneration), k, 0);
      }
    }

    // insert
    method Insert(H: HashFunction, key: Key)
      requires Valid(H)
      modifies this
      ensures Valid(H) && inserted == old(inserted) + [key]
      ensures nEntriesPerGeneration == old(nEntriesPerGeneration) && Now() == old(Now())
    {
      NextInGeneration(|inserted|, nEntriesPerGeneration);
      if nEntriesThisGeneration == nEntriesPerGeneration {
        NewGeneration(H);
      }
      MarkKey(H, key);
    }

    // the rest of insert
    method MarkKey(H: HashFunction, key: Key)
      requires Sound(H) && nEntriesThisGeneration < nEntriesPerGeneration
      modifies this
      ensures Sound(H) && inserted == old(inserted) + [key] && nEntriesThisGeneration == old(nEntriesThisGeneration) + 1
      ensures nEntriesPerGeneration == old(nEntriesPerGeneration) && Now() == old(Now())
    {
      nEntriesThisGeneration := nEntriesThisGeneration + 1;
      data := MarkAll(H, data, nHashFuncs, nTweak, key, nGeneration);
      inserted := inserted + [key];
      forall k: nat | k < TWO32 ensures CellOk(H, k) {
        assert old(CellOk(H, k));
        CellShifts(H, Now(), old(inserted), key, old(nEntriesThisGeneration), nEntriesPerGeneration, nGeneration, k, 0);
      }
    }

    /** A key is reported exactly when every cell of it is a cell of one of the latest Kept() keys. */
    lemma ReportedIff(H: HashFunction, key: Key)
      requires Valid(H)
      ensures AllSet(H, data, nHashFuncs, nTweak, key) <==> Shared(H, Now(), inserted, Kept(), key)
    {
      forall n: nat | n < nHashFuncs
        ensures Holds(data, H(n, nTweak, key)) != 0 <==>
                Selected(H, Now(), inserted, |inserted| - Kept(), |inserted|, H(n, nTweak, key))
      {
        assert CellOk(H, H(n, nTweak, key));
        CellSet(H, Now(), inserted, nEntriesThisGeneration, nEntriesPerGeneration, nGeneration, H(n, nTweak, key), 0);
      }
    }

    /** Every key among the latest Kept() ones is found. */
    lemma LatestFound(H: HashFunction, age: nat)
      requires Valid(H) && age < Kept()
      ensures AllSet(H, data, nHashFuncs, nTweak, inserted[|inserted| - 1 - age])
    {
      var i := |inserted| - 1 - age;
      forall n: nat | n < nHashFuncs ensures Selected(H, Now(), inserted, |inserted| - Kept(), |inserted|, H(n, nTweak, inserted[i])) {
        OwnCells(H, Now(), inserted[i], n);
      }
      ReportedIff(H, inserted[i]);
    }

    // contains
    method Contains(H: HashFunction, key: Key) returns (found: bool)
      requires HashOk(H) && IsData(data)
      ensures found <==> AllSet(H, data, nHashFuncs, nTweak, key)
    {
      for n := 0 to nHashFuncs
        invariant forall m: nat | m < n :: Holds(data, H(m, nTweak, key)) != 0
      {
        var h := H(n, nTweak, key);
        var bit := h % BITS;
        var pos := FastMod(h, |data|);
        if !Or(data[pos - pos % 2], data[pos - pos % 2 + 1])[bit] {
          return false;
        }
      }
      return true;
    }
  }

  datatype Op = Insert(key: Key) | Reset(tweak: nat)

  /** The keys inserted since the last reset. */
  function SinceReset(ops: seq<Op>): seq<Key> {
    if ops == [] then []
    else
      var last := ops[|ops| - 1];
      if last.Reset? then [] else SinceReset(ops[..|ops| - 1]) + [last.key]
  }

  /** The tweak that is in use after a run. */
  function LastTweak(tweak: nat, ops: seq<Op>): nat {
    if ops == [] then tweak
    else
      var last := ops[|ops| - 1];
      if last.Reset? then last.tweak else LastTweak(tweak, ops[..|ops| - 1])
  }

  function Latest(keys: seq<Key>, n: nat): seq<Key> {
    if n < |keys| then keys[|keys| - n..] else keys
  }

  /** How many of the latest keys a filter for N elements remembers. */
  ghost function Remembered(nElements: nat, keys: seq<Key>): (r: nat)
    requires nElements >= 1
    ensures r == |keys| || nElements <= r <= 3 * ((nElements + 1) / 2)
  {
    Counting(keys, InGeneration(|keys|, (nElements + 1) / 2), (nElements + 1) / 2)
  }

  // After any run a key is reported exactly when each cell of it is a cell of one of the latest keys that are
  // remembered; what is older leaves no trace.
  method Run(H: HashFunction, nElements: nat, hashFuncs: nat, nFilterBits: nat, tweak: nat, ops: seq<Op>, key: Key)
    returns (found: bool)
    requires HashOk(H) && nElements >= 1 && nFilterBits >= 1
    ensures found <==> Shared(H, Shape((nFilterBits + 63) / 64 * 2, hashFuncs, LastTweak(tweak, ops)), SinceReset(ops),
                              Remembered(nElements, SinceReset(ops)), key)
    ensures key in Latest(SinceReset(ops), nElements) ==> found
  {
    var filter := new RollingBloomFilter(H, nElements, hashFuncs, nFilterBits, tweak);
    for i := 0 to |ops|
      invariant filter.Valid(H) && filter.inserted == SinceReset(ops[..i])
      invariant filter.nEntriesPerGeneration == (nElements + 1) / 2
      invariant filter.Now() == Shape((nFilterBits + 63) / 64 * 2, hashFuncs, LastTweak(tweak, ops[..i]))
    {
      assert ops[..i + 1][..i] == ops[..i];
      match ops[i]
      case Insert(k) => filter.Insert(H, k);
      case Reset(t) => filter.Reset(H, t);
    }
    assert ops[..|ops|] == ops;
    filter.ReportedIff(H, key);
    if key in Latest(filter.inserted, nElements) {
      ghost var latest := Latest(filter.inserted, nElements);
      ghost var i :| 0 <= i < |latest| && latest[i] == key;
      filter.LatestFound(H, |latest| - 1 - i);
    }
    found := filter.Contains(H, key);
  }
}
