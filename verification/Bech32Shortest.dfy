/** The checksums of the shortest strings, worked out step by step (src/test/bech32_tests.cpp). */
module Bech32Shortest {
  import opened Powers
  import opened Bech32
  import opened Bech32Field

  /** Group j of stacked groups. */
  lemma GroupOfStack(g: seq<Bits>, j: nat)
    requires Groups(g) && |g| == 6 && j < 6
    ensures Group(Stack(g), j) == g[5 - j]
  {
    forall b | 0 <= b < 5 ensures Group(Stack(g), j)[b] == g[5 - j][b] {
      StackAt(g, 5 - j, b);
    }
  }

  /** Value i of b, counted from the top, is what a step with input zero makes of a. */
  ghost predicate Reduces(a: seq<Bits>, b: seq<Bits>, i: nat)
    requires Groups(a) && Groups(b) && |a| == |b| == 6 && i < 6
  {
    b[i] == Xor(if i == 5 then Zeros(5) else a[i + 1], Times(a[0], G(i + 1)))
  }

  lemma StepOnGroup(a: seq<Bits>, b: seq<Bits>, i: nat)
    requires Groups(a) && Groups(b) && |a| == |b| == 6 && i < 6 && Reduces(a, b, i)
    ensures Group(Step(Stack(a), Zeros(5)), 5 - i) == Group(Stack(b), 5 - i)
  {
    StepIsReduction(Stack(a), Zeros(5), 5 - i);
    GroupOfStack(a, 5);
    if i < 5 { GroupOfStack(a, 4 - i); }
    GroupOfStack(b, 5 - i);
  }

  lemma StepOnGroups(a: seq<Bits>, b: seq<Bits>)
    requires Groups(a) && Groups(b) && |a| == |b| == 6
    requires forall i: nat | i < 6 :: Reduces(a, b, i)
    ensures Step(Stack(a), Zeros(5)) == Stack(b)
  {
    var c, d := Step(Stack(a), Zeros(5)), Stack(b);
    forall j | 0 <= j < 6 ensures Group(c, j) == Group(d, j) {
      assert Reduces(a, b, 5 - j);
      StepOnGroup(a, b, 5 - j);
    }
    SameGroups(c, d);
  }

  lemma Products1()
    ensures Times(Five(1), Five(18)) == Five(18) && Times(Five(1), Five(29)) == Five(29) && Times(Five(1), Five(21)) == Five(21)
    ensures Times(Five(1), Five(20)) == Five(20) && Times(Five(1), Five(22)) == Five(22)
  {
    Multiples18();
    Multiples29();
    Multiples21();
    Multiples20();
    Multiples22();
  }

  lemma Products30()
    ensures Times(Five(30), Five(18)) == Five(25) && Times(Five(30), Five(29)) == Five(23) && Times(Five(30), Five(21)) == Five(17)
    ensures Times(Five(30), Five(20)) == Five(15) && Times(Five(30), Five(22)) == Five(26)
  {
    Multiples18();
    Multiples29();
    Multiples21();
    Multiples20();
    Multiples22();
  }

  lemma Products18()
    ensures Times(Five(18), Five(18)) == Five(30) && Times(Five(18), Five(29)) == Five(6) && Times(Five(18), Five(21)) == Five(27)
    ensures Times(Five(18), Five(20)) == Five(9) && Times(Five(18), Five(22)) == Five(4)
  {
    Multiples18();
    Multiples29();
    Multiples21();
    Multiples20();
    Multiples22();
  }

  /** One value of such a step, from a product and a sum. */
  lemma ReducesBy(a: seq<nat>, b: seq<nat>, i: nat, p: nat)
    requires |a| == |b| == 6 && i < 6 && Times(Five(a[0]), G(i + 1)) == Five(p)
    requires Five(b[i]) == Xor(Five(if i == 5 then 0 else a[i + 1]), Five(p))
    ensures Reduces(ToGroups(a), ToGroups(b), i)
  {
    assert Five(0) == Zeros(5);
  }

  lemma SumsA1Top()
    ensures Xor(Five(3), Five(29)) == Five(30) && Xor(Five(0), Five(22)) == Five(22) && Xor(Five(1), Five(20)) == Five(21)
  {
  }

  lemma SumsA1Low()
    ensures Xor(Five(0), Five(21)) == Five(21) && Xor(Five(0), Five(29)) == Five(29) && Xor(Five(0), Five(18)) == Five(18)
  {
  }

  lemma SumsA1()
    ensures Xor(Five(3), Five(29)) == Five(30) && Xor(Five(0), Five(22)) == Five(22)
    ensures Xor(Five(1), Five(20)) == Five(21) && Xor(Five(0), Five(21)) == Five(21)
    ensures Xor(Five(0), Five(29)) == Five(29) && Xor(Five(0), Five(18)) == Five(18)
  {
    SumsA1Top();
    SumsA1Low();
  }

  lemma ReducesA1(i: nat)
    requires i < 6
    ensures Reduces(ToGroups([1, 3, 0, 1, 0, 0]), ToGroups([30, 22, 21, 21, 29, 18]), i)
  {
    Products1();
    SumsA1();
    var a, b := [1, 3, 0, 1, 0, 0], [30, 22, 21, 21, 29, 18];
    if i == 0 {
      ReducesBy(a, b, 0, 29);
    } else if i == 1 {
      ReducesBy(a, b, 1, 22);
    } else if i == 2 {
      ReducesBy(a, b, 2, 20);
    } else if i == 3 {
      ReducesBy(a, b, 3, 21);
    } else if i == 4 {
      ReducesBy(a, b, 4, 29);
    } else {
      ReducesBy(a, b, 5, 18);
    }
  }

  lemma StepA1()
    ensures Step(Stack(ToGroups([1, 3, 0, 1, 0, 0])), Zeros(5)) == Stack(ToGroups([30, 22, 21, 21, 29, 18]))
  {
    forall i: nat | i < 6 ensures Reduces(ToGroups([1, 3, 0, 1, 0, 0]), ToGroups([30, 22, 21, 21, 29, 18]), i) {
      ReducesA1(i);
    }
    StepOnGroups(ToGroups([1, 3, 0, 1, 0, 0]), ToGroups([30, 22, 21, 21, 29, 18]));
  }

  lemma SumsA2Top()
    ensures Xor(Five(22), Five(23)) == Five(1) && Xor(Five(21), Five(26)) == Five(15) && Xor(Five(21), Five(15)) == Five(26)
  {
  }

  lemma SumsA2Low()
    ensures Xor(Five(29), Five(17)) == Five(12) && Xor(Five(18), Five(23)) == Five(5) && Xor(Five(0), Five(25)) == Five(25)
  {
  }

  lemma SumsA2()
    ensures Xor(Five(22), Five(23)) == Five(1) && Xor(Five(21), Five(26)) == Five(15)
    ensures Xor(Five(21), Five(15)) == Five(26) && Xor(Five(29), Five(17)) == Five(12)
    ensures Xor(Five(18), Five(23)) == Five(5) && Xor(Five(0), Five(25)) == Five(25)
  {
    SumsA2Top();
    SumsA2Low();
  }

  lemma ReducesA2(i: nat)
    requires i < 6
    ensures Reduces(ToGroups([30, 22, 21, 21, 29, 18]), ToGroups([1, 15, 26, 12, 5, 25]), i)
  {
    Products30();
    SumsA2();
    var a, b := [30, 22, 21, 21, 29, 18], [1, 15, 26, 12, 5, 25];
    if i == 0 {
      ReducesBy(a, b, 0, 23);
    } else if i == 1 {
      ReducesBy(a, b, 1, 26);
    } else if i == 2 {
      ReducesBy(a, b, 2, 15);
    } else if i == 3 {
      ReducesBy(a, b, 3, 17);
    } else if i == 4 {
      ReducesBy(a, b, 4, 23);
    } else {
      ReducesBy(a, b, 5, 25);
    }
  }

  lemma StepA2()
    ensures Step(Stack(ToGroups([30, 22, 21, 21, 29, 18])), Zeros(5)) == Stack(ToGroups([1, 15, 26, 12, 5, 25]))
  {
    forall i: nat | i < 6 ensures Reduces(ToGroups([30, 22, 21, 21, 29, 18]), ToGroups([1, 15, 26, 12, 5, 25]), i) {
      ReducesA2(i);
    }
    StepOnGroups(ToGroups([30, 22, 21, 21, 29, 18]), ToGroups([1, 15, 26, 12, 5, 25]));
  }

  lemma SumsA3Top()
    ensures Xor(Five(15), Five(29)) == Five(18) && Xor(Five(26), Five(22)) == Five(12) && Xor(Five(12), Five(20)) == Five(24)
  {
  }

  lemma SumsA3Low()
    ensures Xor(Five(5), Five(21)) == Five(16) && Xor(Five(25), Five(29)) == Five(4) && Xor(Five(0), Five(18)) == Five(18)
  {
  }

  lemma SumsA3()
    ensures Xor(Five(15), Five(29)) == Five(18) && Xor(Five(26), Five(22)) == Five(12)
    ensures Xor(Five(12), Five(20)) == Five(24) && Xor(Five(5), Five(21)) == Five(16)
    ensures Xor(Five(25), Five(29)) == Five(4) && Xor(Five(0), Five(18)) == Five(18)
  {
    SumsA3Top();
    SumsA3Low();
  }

  lemma ReducesA3(i: nat)
    requires i < 6
    ensures Reduces(ToGroups([1, 15, 26, 12, 5, 25]), ToGroups([18, 12, 24, 16, 4, 18]), i)
  {
    Products1();
    SumsA3();
    var a, b := [1, 15, 26, 12, 5, 25], [18, 12, 24, 16, 4, 18];
    if i == 0 {
      ReducesBy(a, b, 0, 29);
    } else if i == 1 {
      ReducesBy(a, b, 1, 22);
    } else if i == 2 {
      ReducesBy(a, b, 2, 20);
    } else if i == 3 {
      ReducesBy(a, b, 3, 21);
    } else if i == 4 {
      ReducesBy(a, b, 4, 29);
    } else {
      ReducesBy(a, b, 5, 18);
    }
  }

  lemma StepA3()
    ensures Step(Stack(ToGroups([1, 15, 26, 12, 5, 25])), Zeros(5)) == Stack(ToGroups([18, 12, 24, 16, 4, 18]))
  {
    forall i: nat | i < 6 ensures Reduces(ToGroups([1, 15, 26, 12, 5, 25]), ToGroups([18, 12, 24, 16, 4, 18]), i) {
      ReducesA3(i);
    }
    StepOnGroups(ToGroups([1, 15, 26, 12, 5, 25]), ToGroups([18, 12, 24, 16, 4, 18]));
  }

  lemma SumsA4Top()
    ensures Xor(Five(12), Five(6)) == Five(10) && Xor(Five(24), Five(4)) == Five(28) && Xor(Five(16), Five(9)) == Five(25)
  {
  }

  lemma SumsA4Low()
    ensures Xor(Five(4), Five(27)) == Five(31) && Xor(Five(18), Five(6)) == Five(20) && Xor(Five(0), Five(30)) == Five(30)
  {
  }

  lemma SumsA4()
    ensures Xor(Five(12), Five(6)) == Five(10) && Xor(Five(24), Five(4)) == Five(28)
    ensures Xor(Five(16), Five(9)) == Five(25) && Xor(Five(4), Five(27)) == Five(31)
    ensures Xor(Five(18), Five(6)) == Five(20) && Xor(Five(0), Five(30)) == Five(30)
  {
    SumsA4Top();
    SumsA4Low();
  }

  lemma ReducesA4Top(i: nat)
    requires i < 2
    ensures Reduces(ToGroups([18, 12, 24, 16, 4, 18]), ToGroups([10, 28, 25, 31, 20, 30]), i)
  {
    Products18();
    SumsA4();
    var a, b := [18, 12, 24, 16, 4, 18], [10, 28, 25, 31, 20, 30];
    if i == 0 {
      ReducesBy(a, b, 0, 6);
    } else {
      ReducesBy(a, b, 1, 4);
    }
  }

  lemma ReducesA4Middle(i: nat)
    requires 2 <= i < 4
    ensures Reduces(ToGroups([18, 12, 24, 16, 4, 18]), ToGroups([10, 28, 25, 31, 20, 30]), i)
  {
    Products18();
    SumsA4();
    var a, b := [18, 12, 24, 16, 4, 18], [10, 28, 25, 31, 20, 30];
    if i == 2 {
      ReducesBy(a, b, 2, 9);
    } else {
      ReducesBy(a, b, 3, 27);
    }
  }

  lemma ReducesA4Low(i: nat)
    requires 4 <= i < 6
    ensures Reduces(ToGroups([18, 12, 24, 16, 4, 18]), ToGroups([10, 28, 25, 31, 20, 30]), i)
  {
    Products18();
    SumsA4();
    var a, b := [18, 12, 24, 16, 4, 18], [10, 28, 25, 31, 20, 30];
    if i == 4 {
      ReducesBy(a, b, 4, 6);
    } else {
      ReducesBy(a, b, 5, 30);
    }
  }

  lemma ReducesA4(i: nat)
    requires i < 6
    ensures Reduces(ToGroups([18, 12, 24, 16, 4, 18]), ToGroups([10, 28, 25, 31, 20, 30]), i)
  {
    if i < 2 {
      ReducesA4Top(i);
    } else if i < 4 {
      ReducesA4Middle(i);
    } else {
      ReducesA4Low(i);
    }
  }

  lemma StepA4()
    ensures Step(Stack(ToGroups([18, 12, 24, 16, 4, 18])), Zeros(5)) == Stack(ToGroups([10, 28, 25, 31, 20, 30]))
  {
    forall i: nat | i < 6 ensures Reduces(ToGroups([18, 12, 24, 16, 4, 18]), ToGroups([10, 28, 25, 31, 20, 30]), i) {
      ReducesA4(i);
    }
    StepOnGroups(ToGroups([18, 12, 24, 16, 4, 18]), ToGroups([10, 28, 25, 31, 20, 30]));
  }

  /** The checksum behind the prefix "a" and no data. */
  lemma ChecksumOfA()
    ensures Checksum([3, 0, 1] + [0, 0, 0, 0, 0, 0]) == Stack(ToGroups([10, 28, 25, 31, 20, 30]))
  {
    var v := [3, 0, 1] + [0, 0, 0, 0, 0, 0];
    var w := [Five(1)] + ToGroups(v);
    RunConcat(Zeros(SIZE), [Five(1)], ToGroups(v));
    StartsWithOne();
    var first := ToGroups([1, 3, 0, 1, 0, 0]);
    assert Five(0) == Zeros(5);
    assert w == first + [Zeros(5)] + [Zeros(5)] + [Zeros(5)] + [Zeros(5)];
    RunSix(first);
    StepA1();
    StepA2();
    StepA3();
    StepA4();
    RunLast(first, Zeros(5));
    RunLast(first + [Zeros(5)], Zeros(5));
    RunLast(first + [Zeros(5)] + [Zeros(5)], Zeros(5));
    RunLast(first + [Zeros(5)] + [Zeros(5)] + [Zeros(5)], Zeros(5));
  }

  lemma RunLast(g: seq<Bits>, v: Bits)
    requires Groups(g) && |v| == 5
    ensures Groups(g + [v]) && Run(Zeros(SIZE), g + [v]) == Step(Run(Zeros(SIZE), g), v)
  {
    assert (g + [v])[..|g|] == g;
  }

  lemma GroupBit(c: Bits, j: nat, b: nat)
    requires |c| == SIZE && j < 6 && b < 5
    ensures Group(c, j)[b] == c[5 * j + b]
  {
  }

  lemma WordGroup(n: nat, j: nat)
    requires j < 6
    ensures Group(Word(n), j) == Five(n / P2(5 * j))
  {
    var g, h := Group(Word(n), j), Five(n / P2(5 * j));
    forall b | 0 <= b < 5 ensures g[b] == h[b] {
      GroupBit(Word(n), j, b);
      WordAt(n, j, b);
    }
  }

  lemma WordOfM(j: nat)
    requires j < 6
    ensures Group(Word(0x2bc830a3), j) == ToGroups([21, 28, 16, 12, 5, 3])[5 - j]
  {
    FivePowers();
    WordGroup(0x2bc830a3, j);
    if j == 0 {
      LowGroup(0x2bc830a3 / 1, 3);
    } else if j == 1 {
      LowGroup(0x2bc830a3 / 32, 5);
    } else if j == 2 {
      LowGroup(0x2bc830a3 / 1024, 12);
    } else if j == 3 {
      LowGroup(0x2bc830a3 / 32768, 16);
    } else if j == 4 {
      LowGroup(0x2bc830a3 / 1048576, 28);
    } else {
      LowGroup(0x2bc830a3 / 33554432, 21);
    }
  }

  lemma ConstantOfM()
    ensures EncodingConstant(BECH32M) == Stack(ToGroups([21, 28, 16, 12, 5, 3]))
  {
    var g := ToGroups([21, 28, 16, 12, 5, 3]);
    forall j | 0 <= j < 6 ensures Group(Word(0x2bc830a3), j) == Group(Stack(g), j) {
      WordOfM(j);
      GroupOfStack(g, j);
    }
    SameGroups(Word(0x2bc830a3), Stack(g));
  }

  lemma ConstantOfOne()
    ensures EncodingConstant(BECH32) == Stack(ToGroups([0, 0, 0, 0, 0, 1]))
  {
    var g := ToGroups([0, 0, 0, 0, 0, 1]);
    forall i | 0 <= i < SIZE ensures ONE[i] == Stack(g)[i] {
      OneAt(i);
      StackAt(g, 5 - i / 5, i % 5);
    }
  }

  lemma StackXor(f: seq<Bits>, g: seq<Bits>, h: seq<Bits>)
    requires Groups(f) && Groups(g) && Groups(h) && |f| == |g| == |h| == 6 && h == Difference(f, g)
    ensures Xor(Stack(f), Stack(g)) == Stack(h)
  {
    forall i | 0 <= i < SIZE ensures Xor(Stack(f), Stack(g))[i] == Stack(h)[i] {
      var j := 5 - i / 5;
      StackAt(f, j, i % 5);
      StackAt(g, j, i % 5);
      StackAt(h, j, i % 5);
    }
  }

  lemma SumsOfOneTop()
    ensures Xor(Five(10), Five(10)) == Five(0) && Xor(Five(28), Five(28)) == Five(0) && Xor(Five(25), Five(25)) == Five(0)
  {
  }

  lemma SumsOfOneLow()
    ensures Xor(Five(31), Five(31)) == Five(0) && Xor(Five(20), Five(20)) == Five(0) && Xor(Five(30), Five(31)) == Five(1)
  {
  }

  lemma SumsOfOne()
    ensures Xor(Five(10), Five(10)) == Five(0) && Xor(Five(28), Five(28)) == Five(0) && Xor(Five(25), Five(25)) == Five(0)
    ensures Xor(Five(31), Five(31)) == Five(0) && Xor(Five(20), Five(20)) == Five(0) && Xor(Five(30), Five(31)) == Five(1)
  {
    SumsOfOneTop();
    SumsOfOneLow();
  }

  lemma SumsOfMTop()
    ensures Xor(Five(10), Five(31)) == Five(21) && Xor(Five(28), Five(0)) == Five(28) && Xor(Five(25), Five(9)) == Five(16)
  {
  }

  lemma SumsOfMLow()
    ensures Xor(Five(31), Five(19)) == Five(12) && Xor(Five(20), Five(17)) == Five(5) && Xor(Five(30), Five(29)) == Five(3)
  {
  }

  lemma SumsOfM()
    ensures Xor(Five(10), Five(31)) == Five(21) && Xor(Five(28), Five(0)) == Five(28) && Xor(Five(25), Five(9)) == Five(16)
    ensures Xor(Five(31), Five(19)) == Five(12) && Xor(Five(20), Five(17)) == Five(5) && Xor(Five(30), Five(29)) == Five(3)
  {
    SumsOfMTop();
    SumsOfMLow();
  }

  lemma ExpandA()
    ensures Expand("a") == [3, 0, 1]
  {
    assert Code('a') == 97;
  }

  lemma ChecksOne()
    ensures Checksum([3, 0, 1] + [10, 28, 25, 31, 20, 31]) == EncodingConstant(BECH32)
  {
    var made, cs, rest := ToGroups([10, 28, 25, 31, 20, 30]), ToGroups([10, 28, 25, 31, 20, 31]), ToGroups([0, 0, 0, 0, 0, 1]);
    ChecksumOfA();
    ChecksumOf([3, 0, 1], [10, 28, 25, 31, 20, 31]);
    assert rest == Difference(made, cs) by { SumsOfOne(); }
    StackXor(made, cs, rest);
    ConstantOfOne();
  }

  lemma ChecksM()
    ensures Checksum([3, 0, 1] + [31, 0, 9, 19, 17, 29]) == EncodingConstant(BECH32M)
  {
    var made, cs, rest := ToGroups([10, 28, 25, 31, 20, 30]), ToGroups([31, 0, 9, 19, 17, 29]), ToGroups([21, 28, 16, 12, 5, 3]);
    ChecksumOfA();
    ChecksumOf([3, 0, 1], [31, 0, 9, 19, 17, 29]);
    assert rest == Difference(made, cs) by { SumsOfM(); }
    StackXor(made, cs, rest);
    ConstantOfM();
  }

  lemma Shortest(e: Encoding, cs: seq<nat>, t: string)
    requires IsData(cs) && |cs| == 6 && Checksum([3, 0, 1] + cs) == EncodingConstant(e) && t == Symbols(cs)
    ensures IsEncoding(Decoding(e, "a", []), "a1" + t)
  {
    ExpandA();
    assert [3, 0, 1] + [] + cs == [3, 0, 1] + cs && [] + cs == cs;
    assert "a" + ['1'] == "a1";
    assert EncodedWith(Decoding(e, "a", []), cs, "a1" + t);
  }

  /** The alphabet in the order of the values. */
  lemma SymbolTable(v: nat)
    requires v < 32
    ensures Symbol(v) == "qpzry9x8gf2tvdw0s3jn54khce6mua7l"[v]
  {
  }

  /** The shortest Bech32 string. */
  lemma ShortestBech32()
    ensures IsEncoding(Decoding(BECH32, "a", []), "a12uel5l")
  {
    ChecksOne();
    assert Symbols([10, 28, 25, 31, 20, 31]) == "2uel5l";
    Shortest(BECH32, [10, 28, 25, 31, 20, 31], "2uel5l");
    assert "a1" + "2uel5l" == "a12uel5l";
  }

  /** The shortest Bech32m string. */
  lemma ShortestBech32m()
    ensures IsEncoding(Decoding(BECH32M, "a", []), "a1lqfn3a")
  {
    ChecksM();
    assert Symbols([31, 0, 9, 19, 17, 29]) == "lqfn3a";
    Shortest(BECH32M, [31, 0, 9, 19, 17, 29], "lqfn3a");
    assert "a1" + "lqfn3a" == "a1lqfn3a";
  }
}
