/** The block index with its skip list, and the active chain (src/chain.h, src/chain.cpp). */
module Chain {
  import opened Powers
  import NonLinear

  const NULL := -1

  /** Blocks are numbered in the order they are added; links hold a number, or NULL. */
  datatype BlockIndex = BlockIndex(pprev: int, pskip: int, nHeight: nat)

  type Tree = seq<BlockIndex>

  // ---------- skip heights ----------

  /** Bitwise and. */
  function And(x: nat, y: nat): nat {
    if x == 0 || y == 0 then 0 else (if x % 2 == 1 && y % 2 == 1 then 1 else 0) + 2 * And(x / 2, y / 2)
  }

  lemma {:induction false} AndSelf(x: nat)
    ensures And(x, x) == x
    decreases x
  {
    if x != 0 { AndSelf(x / 2); }
  }

  function InvertLowestOne(n: nat): nat {
    if n == 0 then 0 else And(n, n - 1)
  }

  lemma InvertEven(m: nat)
    requires m > 0
    ensures InvertLowestOne(2 * m) == 2 * InvertLowestOne(m)
  {
    assert 2 * m / 2 == m && (2 * m - 1) / 2 == m - 1;
  }

  /** Only the lowest set bit goes: below it there is nothing to keep, above it nothing changes. */
  lemma {:induction false} InvertLowest(n: nat, k: nat, q: nat)
    requires n == P2(k) * (2 * q + 1)
    ensures InvertLowestOne(n) == n - P2(k)
    decreases k
  {
    if k == 0 {
      AndSelf(q);
      assert n / 2 == q && (n - 1) / 2 == q;
    } else {
      var p := P2(k - 1);
      var m := p * (2 * q + 1);
      NonLinear.MulMono(p, 1, 2 * q + 1);
      InvertLowest(m, k - 1, q);
      InvertEven(m);
      assert n == 2 * m by { NonLinear.MulAssoc(2, p, 2 * q + 1); }
    }
  }

  lemma {:induction false} AndBelow(x: nat, y: nat)
    ensures And(x, y) <= y
    decreases x
  {
    if x != 0 && y != 0 { AndBelow(x / 2, y / 2); }
  }

  lemma InvertBelow(n: nat)
    ensures if n == 0 then InvertLowestOne(n) == 0 else InvertLowestOne(n) < n
  {
    if n != 0 { AndBelow(n, n - 1); }
  }

  function GetSkipHeight(height: int): (r: nat)
    ensures height >= 1 ==> r < height
  {
    if height < 2 then 0
    else if height % 2 == 1 then
      InvertBelow(height - 1);
      InvertBelow(InvertLowestOne(height - 1));
      InvertLowestOne(InvertLowestOne(height - 1)) + 1
    else
      InvertBelow(height);
      InvertLowestOne(height)
  }

  // ---------- how far a walk is ----------

  /** The height GetAncestor goes to next from height w on its way down to height t. */
  ghost function Next(w: nat, t: nat): (r: nat)
    requires t < w
    ensures t <= r < w
  {
    var skip, skipPrev := GetSkipHeight(w), GetSkipHeight(w - 1);
    if skip == t || (skip > t && !(skipPrev < skip - 2 && skipPrev >= t)) then skip else w - 1
  }

  /** The number of links GetAncestor follows. */
  ghost function Steps(w: nat, t: nat): nat
    decreases w
  {
    if w <= t then 0 else 1 + Steps(Next(w, t), t)
  }

  lemma StepsNext(w: nat, t: nat, follow: bool)
    requires t < w
    requires var skip, skipPrev := GetSkipHeight(w), GetSkipHeight(w - 1);
             follow <==> skip == t || (skip > t && !(skipPrev < skip - 2 && skipPrev >= t))
    ensures Steps(w, t) == 1 + Steps(if follow then GetSkipHeight(w) else w - 1, t)
  {
  }

  /** The number of low bits, the lowest aside, below which w and t agree. */
  ghost function Level(w: nat, t: nat): nat
    decreases w + t
  {
    if w / 2 == t / 2 then 0 else 1 + Level(w / 2, t / 2)
  }

  /** The number of ones among the d lowest bits. */
  ghost function Ones(n: nat, d: nat): (r: nat)
    ensures r <= d
    decreases d
  {
    if d == 0 then 0 else n % 2 + Ones(n / 2, d - 1)
  }

  lemma InvertOdd(q: nat)
    ensures InvertLowestOne(2 * q + 1) == 2 * q
  {
    AndSelf(q);
    assert (2 * q + 1) / 2 == q && 2 * q / 2 == q;
  }

  lemma InvertTwice(q: nat)
    ensures InvertLowestOne(2 * q) == 2 * InvertLowestOne(q)
  {
    if q > 0 { InvertEven(q); }
  }

  /** Clearing the lowest one without passing t keeps the level and takes one of the ones below it. */
  lemma {:induction false} ClearOne(n: nat, t: nat)
    requires InvertLowestOne(n) > t
    ensures Level(InvertLowestOne(n), t) == Level(n, t)
    ensures Ones(InvertLowestOne(n), Level(n, t)) == Ones(n, Level(n, t)) - 1
    decreases n
  {
    var m := n / 2;
    InvertBelow(m);
    if n % 2 == 1 {
      InvertOdd(m);
      assert (2 * m) / 2 == m && 2 * m % 2 == 0;
    } else {
      InvertTwice(m);
      ClearOne(m, t / 2);
      assert 2 * InvertLowestOne(m) / 2 == InvertLowestOne(m);
    }
  }

  /** If clearing the lowest one would pass t, the number just below agrees with t further down. */
  lemma {:induction false} LevelDrops(n: nat, t: nat)
    requires n % 2 == 0 && InvertLowestOne(n) <= t < n
    ensures Level(n - 1, t) < Level(n, t)
    decreases n
  {
    var m := n / 2;
    assert (n - 1) / 2 == m - 1 && m > t / 2;
    if t / 2 < m - 1 {
      InvertTwice(m);
      if m % 2 == 1 { InvertOdd(m / 2); }
      LevelDrops(m, t / 2);
    }
  }

  lemma {:induction false} LevelMono(v: nat, w: nat, t: nat)
    requires t <= v <= w
    ensures Level(v, t) <= Level(w, t)
    decreases w
  {
    if v / 2 != t / 2 { LevelMono(v / 2, w / 2, t / 2); }
  }

  /** The number that every step makes smaller. */
  ghost function Potential(w: nat, t: nat): nat {
    Core(w - w % 2, t) + Bonus(w, t)
  }

  ghost function Core(n: nat, t: nat): nat {
    Weight(Level(n, t)) + 3 * Ones(n, Level(n, t))
  }

  ghost function Weight(d: nat): nat {
    if d == 0 then 0 else 3 * d + Weight(d - 1)
  }

  lemma {:induction false} WeightIs(d: nat)
    ensures 2 * Weight(d) == 3 * d * (d + 1)
  {
    if d > 0 { WeightIs(d - 1); }
  }

  lemma {:induction false} WeightMono(c: nat, d: nat)
    requires c <= d
    ensures Weight(c) <= Weight(d)
    decreases d
  {
    if c < d { WeightMono(c, d - 1); }
  }

  /** From an even height with a link that does not pass t, the link of the height below is preferred. */
  ghost predicate Prefers(w: nat, t: nat)
    requires w > 0
  {
    GetSkipHeight(w) > t && t <= GetSkipHeight(w - 1) < GetSkipHeight(w) - 2
  }

  ghost function Bonus(w: nat, t: nat): (r: nat)
    ensures r <= 2
  {
    if w % 2 == 1 then 1 else if w > 0 && Prefers(w, t) then 2 else 0
  }

  /** An odd height never prefers the height below. */
  lemma OddNext(w: nat, t: nat)
    requires t < w && w % 2 == 1
    ensures Next(w, t) == if GetSkipHeight(w) >= t then GetSkipHeight(w) else w - 1
  {
    if w >= 3 { InvertBelow(InvertLowestOne(w - 1)); }
  }

  lemma CoreSkip(n: nat, t: nat)
    requires InvertLowestOne(n) > t
    ensures Core(InvertLowestOne(n), t) == Core(n, t) - 3
  {
    ClearOne(n, t);
  }

  lemma InvertIsEven(n: nat)
    requires n % 2 == 0
    ensures InvertLowestOne(n) % 2 == 0
  {
    InvertTwice(n / 2);
    NonLinear.TwiceIsEven(InvertLowestOne(n / 2));
  }

  /** A link followed from an even height. */
  lemma EvenSkip(w: nat, t: nat)
    requires w % 2 == 0 && InvertLowestOne(w) > t
    ensures Potential(InvertLowestOne(w), t) < Potential(w, t)
  {
    CoreSkip(w, t);
    InvertIsEven(w);
  }

  lemma OddPotential(n: nat, t: nat)
    requires n % 2 == 0
    ensures Potential(n + 1, t) == Core(n, t) + 1
  {
    assert (n + 1) % 2 == 1;
  }

  lemma CoreApart(n: nat, t: nat)
    requires n % 2 == 0 && t % 2 == 0 && t < n
    ensures Core(t, t) == 0 && Core(n, t) >= 3
  {
    assert t / 2 < n / 2;
    WeightMono(1, Level(n, t));
  }

  /** A link followed from an odd height. */
  lemma OddSkip(n: nat, t: nat)
    requires n % 2 == 0 && n >= 2 && GetSkipHeight(n + 1) > t
    ensures Potential(GetSkipHeight(n + 1), t) < Potential(n + 1, t)
  {
    var c := InvertLowestOne(n);
    InvertIsEven(n);
    InvertIsEven(c);
    InvertBelow(n);
    InvertBelow(c);
    OddSkipTo(n, c, InvertLowestOne(c), t);
  }

  lemma OddSkipTo(n: nat, c: nat, b: nat, t: nat)
    requires c == InvertLowestOne(n) && b == InvertLowestOne(c) && t <= b <= c < n && n % 2 == 0 && b % 2 == 0
    ensures Potential(b + 1, t) < Potential(n + 1, t)
  {
    OddPotential(n, t);
    OddPotential(b, t);
    if b > t {
      CoreSkip(n, t);
      CoreSkip(c, t);
    } else {
      CoreApart(n, t);
    }
  }

  /** The step to the height below when the link of an even height passes t. */
  lemma EvenBack(w: nat, t: nat)
    requires w % 2 == 0 && InvertLowestOne(w) < t < w - 1
    ensures Potential(w - 1, t) < Potential(w, t)
  {
    LevelDrops(w, t);
    assert (w - 1) / 2 == (w - 2) / 2;
    WeightMono(Level(w - 2, t), Level(w, t) - 1);
  }

  lemma SkipOfOdd(n: nat)
    requires n % 2 == 0 && n >= 2
    ensures GetSkipHeight(n + 1) == InvertLowestOne(InvertLowestOne(n)) + 1
  {
  }

  lemma InvertSix(v: nat)
    requires v % 8 == 6
    ensures InvertLowestOne(InvertLowestOne(v)) == v - 6
  {
    LowSix(v / 8);
    LowThree(v / 8);
  }

  lemma InvertEight(w: nat)
    requires w % 8 == 0 && w > 0
    ensures InvertLowestOne(w) <= w - 8
  {
    LowThree(w / 8);
    InvertBelow(w / 8);
  }

  lemma SkipOfEven(n: nat)
    requires n % 2 == 0
    ensures GetSkipHeight(n) == InvertLowestOne(n)
  {
  }

  /** Below a multiple of eight, the link of the odd height leads less far down than that of the even one. */
  lemma SkipsOfEight(w: nat)
    requires w % 8 == 0 && w > 0
    ensures GetSkipHeight(w) < GetSkipHeight(w - 1)
  {
    InvertEight(w);
    SkipOfSeven(w - 2);
    SkipOfEven(w);
  }

  lemma SkipOfSeven(v: nat)
    requires v % 8 == 6
    ensures GetSkipHeight(v + 1) == v - 5
  {
    InvertSix(v);
    SkipOfOdd(v);
  }

  lemma EvenCases(w: nat)
    requires w % 2 == 0
    ensures w % 8 == 0 || w % 4 == 2 || w % 8 == 4
  {
  }

  /** The last three bits of a height that prefers the link of the height below. */
  lemma PrefersShape(w: nat, t: nat)
    requires w > 0 && w % 2 == 0 && Prefers(w, t)
    ensures w % 4 == 2 || w % 8 == 4
  {
    EvenCases(w);
    if w % 8 == 0 { SkipsOfEight(w); }
  }

  lemma LowThree(u: nat)
    ensures InvertLowestOne(8 * u) == 8 * InvertLowestOne(u) && InvertLowestOne(8 * u + 4) == 8 * u
  {
    InvertTwice(u);
    InvertTwice(2 * u);
    InvertTwice(4 * u);
    InvertOdd(u);
    InvertTwice(2 * u + 1);
    InvertTwice(4 * u + 2);
  }

  lemma LowSix(u: nat)
    ensures InvertLowestOne(8 * u + 6) == 8 * u + 4 && InvertLowestOne(8 * u + 2) == 8 * u
  {
    InvertOdd(2 * u + 1);
    InvertTwice(4 * u + 3);
    InvertOdd(2 * u);
    InvertTwice(4 * u + 1);
  }

  lemma OnesStep(q: nat, b: nat, d: nat)
    requires b < 2 && d > 0
    ensures Ones(2 * q + b, d) == b + Ones(q, d - 1)
  {
    assert (2 * q + b) / 2 == q && (2 * q + b) % 2 == b;
  }

  lemma OnesOfEight(q: nat, d: nat)
    requires d >= 3
    ensures Ones(8 * q + 2, d) == Ones(8 * q + 4, d)
  {
    OnesOfTwo(q, d);
    OnesOfFour(q, d);
  }

  lemma OnesOfTwo(q: nat, d: nat)
    requires d >= 3
    ensures Ones(8 * q + 2, d) == 1 + Ones(q, d - 3)
  {
    OnesStep(4 * q + 1, 0, d);
    OnesStep(2 * q, 1, d - 1);
    OnesStep(q, 0, d - 2);
  }

  lemma OnesOfFour(q: nat, d: nat)
    requires d >= 3
    ensures Ones(8 * q + 4, d) == 1 + Ones(q, d - 3)
  {
    OnesStep(4 * q + 2, 0, d);
    OnesStep(2 * q + 1, 0, d - 1);
    OnesStep(q, 1, d - 2);
  }

  lemma LevelStep(q: nat, t: nat)
    requires 2 * q > t
    ensures q > t / 2 && Level(2 * q, t) == 1 + Level(q, t / 2)
  {
    assert 2 * q / 2 == q;
  }

  lemma LevelOfEight(q: nat, t: nat)
    requires 8 * q > t
    ensures Level(8 * q, t) >= 3
  {
    LevelStep(4 * q, t);
    LevelStep(2 * q, t / 2);
    LevelStep(q, t / 2 / 2);
  }

  lemma LevelFour(a: nat, b: nat, w: nat, t: nat)
    requires t < a == InvertLowestOne(w) && a <= b <= w
    ensures Level(a, t) == Level(b, t) == Level(w, t)
  {
    ClearOne(w, t);
    LevelMono(a, b, t);
    LevelMono(b, w, t);
  }

  lemma CoreFour(q: nat, t: nat)
    requires 8 * q > t && InvertLowestOne(8 * q + 4) == 8 * q
    ensures Core(8 * q + 2, t) == Core(8 * q + 4, t)
  {
    LevelFour(8 * q, 8 * q + 2, 8 * q + 4, t);
    var d := Level(8 * q, t);
    LevelOfEight(q, t);
    OnesOfEight(q, d);
  }

  lemma InvertTwo(w: nat)
    requires w % 4 == 2
    ensures InvertLowestOne(w) == w - 2
  {
    InvertOdd(w / 4);
    InvertTwice(w / 2);
  }

  /** The step to the height below when its link is preferred. */
  lemma PreferredBack(w: nat, t: nat)
    requires w > 0 && w % 2 == 0 && Prefers(w, t)
    ensures Potential(w - 1, t) < Potential(w, t)
  {
    PrefersShape(w, t);
    SkipOfEven(w);
    if w % 4 == 2 {
      InvertTwo(w);
      CoreSkip(w, t);
    } else {
      CoreBelowFour(w, t);
    }
  }

  lemma CoreBelowFour(w: nat, t: nat)
    requires w % 8 == 4 && InvertLowestOne(w) > t
    ensures Core(w - 2, t) == Core(w, t)
  {
    LowThree(w / 8);
    assert w == 8 * (w / 8) + 4;
    CoreFour(w / 8, t);
  }

  /** For these heights two links further down is no higher than two links from the even height before. */
  lemma TwoLinks(v: nat)
    requires v >= 4 && (v % 4 == 2 || v % 8 == 4)
    ensures InvertLowestOne(InvertLowestOne(v - 2)) <= InvertLowestOne(InvertLowestOne(v))
  {
    if v % 4 == 2 {
      InvertTwo(v);
      InvertBelow(InvertLowestOne(InvertLowestOne(v)));
    } else {
      LowThree(v / 8);
      LowSix(v / 8);
    }
  }

  /** A height whose second link leads so far down does not prefer the height below. */
  lemma NotPreferred(v: nat, t: nat)
    requires v % 2 == 0 && v >= 2 && InvertLowestOne(InvertLowestOne(v)) + 1 < t
    ensures !Prefers(v, t)
  {
    if Prefers(v, t) {
      PrefersShape(v, t);
      if v >= 4 {
        TwoLinks(v);
        SkipOfOdd(v - 2);
      }
      assert false;
    }
  }

  /** Behind a step to the height below from an odd height, the link is followed or passes t. */
  lemma OddBack(v: nat, t: nat)
    requires v % 2 == 0 && v >= 2 && InvertLowestOne(InvertLowestOne(v)) + 1 < t < v
    ensures Potential(v, t) < Potential(v + 1, t)
  {
    NotPreferred(v, t);
  }

  lemma StepDown(w: nat, t: nat)
    requires t < w && t < Next(w, t)
    ensures Potential(Next(w, t), t) < Potential(w, t)
  {
    if w % 2 == 1 {
      OddNext(w, t);
      if GetSkipHeight(w) >= t { OddSkip(w - 1, t); } else { OddBack(w - 1, t); }
    } else if Prefers(w, t) {
      PreferredBack(w, t);
    } else if InvertLowestOne(w) > t {
      EvenSkip(w, t);
    } else {
      EvenBack(w, t);
    }
  }

  lemma {:induction false} StepsBelow(w: nat, t: nat)
    requires t < w
    ensures Steps(w, t) <= Potential(w, t) + 1
    decreases w
  {
    var n := Next(w, t);
    if t < n {
      StepDown(w, t);
      StepsBelow(n, t);
    }
  }

  lemma {:induction false} LevelBelow(w: nat, t: nat, bits: nat)
    requires t < w < P2(bits)
    ensures Level(w, t) < bits
    decreases bits
  {
    if w / 2 != t / 2 { LevelBelow(w / 2, t / 2, bits - 1); }
  }

  /** From a height of so many bits, any ancestor is at most this many links away. */
  lemma StepsBound(w: nat, t: nat, bits: nat)
    requires w < P2(bits)
    ensures 2 * Steps(w, t) <= 3 * bits * (bits + 1)
  {
    if t < w {
      StepsBelow(w, t);
      LevelBelow(w, t, bits);
      WeightMono(Level(w, t) + 1, bits);
    }
    WeightIs(bits);
  }

  // ---------- ancestors ----------

  ghost predicate Linked(t: Tree) {
    forall i | 0 <= i < |t| :: LinkOk(t, i)
  }

  ghost predicate LinkOk(t: Tree, i: nat)
    requires i < |t|
  {
    if t[i].pprev == NULL then t[i].nHeight == 0
    else 0 <= t[i].pprev < i && t[i].nHeight == t[t[i].pprev].nHeight + 1
  }

  /** The ancestor at height h, by walking pprev. */
  ghost function Walk(t: Tree, i: nat, h: nat): (r: nat)
    requires Linked(t) && i < |t| && h <= t[i].nHeight
    ensures r <= i && t[r].nHeight == h
    decreases i
  {
    assert LinkOk(t, i);
    if t[i].nHeight == h then i else Walk(t, t[i].pprev, h)
  }

  /** Skip pointers are what BuildSkip sets: NULL, or the ancestor at the skip height. */
  ghost predicate Skips(t: Tree)
    requires Linked(t)
  {
    forall i | 0 <= i < |t| :: SkipOk(t, i)
  }

  ghost predicate SkipOk(t: Tree, i: nat)
    requires Linked(t) && i < |t|
  {
    assert LinkOk(t, i);
    t[i].pskip == if t[i].pprev == NULL then NULL else Walk(t, t[i].pprev, GetSkipHeight(t[i].nHeight))
  }

  ghost predicate WellFormed(t: Tree) {
    Linked(t) && Skips(t)
  }

  lemma {:induction false} WalkTwice(t: Tree, i: nat, g: nat, h: nat)
    requires Linked(t) && i < |t| && h <= g <= t[i].nHeight
    ensures Walk(t, Walk(t, i, g), h) == Walk(t, i, h)
    decreases i
  {
    assert LinkOk(t, i);
    if t[i].nHeight != g {
      WalkTwice(t, t[i].pprev, g, h);
    }
  }

  // CBlockIndex::GetAncestor
  method GetAncestor(t: Tree, i: nat, height: int) returns (r: int, ghost links: nat)
    requires WellFormed(t) && i < |t|
    ensures r == if 0 <= height <= t[i].nHeight then Walk(t, i, height) else NULL
    ensures forall bits: nat | t[i].nHeight < P2(bits) :: 2 * links <= 3 * bits * (bits + 1)
  {
    links := 0;
    if height > t[i].nHeight || height < 0 {
      return NULL, 0;
    }
    var walk: nat := i;
    var heightWalk := t[i].nHeight;
    while heightWalk > height
      invariant walk < |t| && height <= heightWalk == t[walk].nHeight
      invariant Walk(t, walk, height) == Walk(t, i, height)
      invariant links + Steps(heightWalk, height) == Steps(t[i].nHeight, height)
      decreases heightWalk
    {
      assert LinkOk(t, walk) && SkipOk(t, walk);
      var heightSkip := GetSkipHeight(heightWalk);
      var heightSkipPrev := GetSkipHeight(heightWalk - 1);
      StepsNext(heightWalk, height, heightSkip == height ||
                                    (heightSkip > height && !(heightSkipPrev < heightSkip - 2 && heightSkipPrev >= height)));
      if t[walk].pskip != NULL &&
         (heightSkip == height ||
          (heightSkip > height && !(heightSkipPrev < heightSkip - 2 && heightSkipPrev >= height)))
      {
        WalkTwice(t, t[walk].pprev, heightSkip, height);
        walk := t[walk].pskip;
        heightWalk := heightSkip;
      } else {
        walk := t[walk].pprev;
        heightWalk := heightWalk - 1;
      }
      links := links + 1;
    }
    forall bits: nat | t[i].nHeight < P2(bits) ensures 2 * links <= 3 * bits * (bits + 1) {
      StepsBound(t[i].nHeight, height, bits);
    }
    return walk, links;
  }

  // a new entry: its height from its parent, and BuildSkip
  method AddBlock(t: Tree, pprev: int) returns (t': Tree)
    requires WellFormed(t) && (pprev == NULL || 0 <= pprev < |t|)
    ensures WellFormed(t') && |t'| == |t| + 1 && t'[..|t|] == t
    ensures t'[|t|].pprev == pprev && t'[|t|].nHeight == (if pprev == NULL then 0 else t[pprev].nHeight + 1)
  {
    if pprev == NULL {
      t' := t + [BlockIndex(NULL, NULL, 0)];
    } else {
      var nHeight := t[pprev].nHeight + 1;
      var pskip, _ := GetAncestor(t, pprev, GetSkipHeight(nHeight));
      t' := t + [BlockIndex(pprev, pskip, nHeight)];
    }
    LinkedGrows(t, t');
    SkipsGrow(t, t');
  }

  lemma LinkedGrows(t: Tree, t': Tree)
    requires Linked(t) && |t'| == |t| + 1 && t'[..|t|] == t && LinkOk(t', |t|)
    ensures Linked(t')
  {
    forall i | 0 <= i < |t'| ensures LinkOk(t', i) {
      if i < |t| {
        assert LinkOk(t, i) && t'[i] == t[i];
      }
    }
  }

  lemma {:induction false} WalkGrows(t: Tree, t': Tree, i: nat, h: nat)
    requires Linked(t) && Linked(t') && |t| <= |t'| && t'[..|t|] == t && i < |t| && h <= t[i].nHeight
    ensures t'[i] == t[i] && Walk(t', i, h) == Walk(t, i, h)
    decreases i
  {
    assert LinkOk(t, i) && t'[i] == t[i];
    if t[i].nHeight != h {
      WalkGrows(t, t', t[i].pprev, h);
    }
  }

  lemma SkipsGrow(t: Tree, t': Tree)
    requires WellFormed(t) && Linked(t') && |t'| == |t| + 1 && t'[..|t|] == t
    requires var b := t'[|t|];
      if b.pprev == NULL then b.pskip == NULL
      else 0 <= b.pprev < |t| && b.nHeight == t[b.pprev].nHeight + 1 &&
           b.pskip == Walk(t, b.pprev, GetSkipHeight(b.nHeight))
    ensures WellFormed(t')
  {
    forall i | 0 <= i < |t'| ensures SkipOk(t', i) {
      assert LinkOk(t', i);
      var b := t'[i];
      if i < |t| {
        assert SkipOk(t, i) && LinkOk(t, i) && b == t[i];
      }
      if b.pprev != NULL {
        WalkGrows(t, t', b.pprev, GetSkipHeight(b.nHeight));
      }
    }
  }

  // ---------- the last common ancestor ----------

  /** a is i or one of its ancestors. */
  ghost predicate IsAncestor(t: Tree, a: int, i: nat)
    requires Linked(t) && i < |t|
  {
    0 <= a < |t| && t[a].nHeight <= t[i].nHeight && Walk(t, i, t[a].nHeight) == a
  }

  /** Two blocks at one height that differ cannot share an ancestor there; their parents decide. */
  lemma CommonBelow(t: Tree, a: nat, b: nat, x: int)
    requires Linked(t) && a < |t| && b < |t| && t[a].nHeight == t[b].nHeight && a != b
    ensures LinkOk(t, a) && LinkOk(t, b)
    ensures IsAncestor(t, x, a) && IsAncestor(t, x, b) <==>
            t[a].pprev != NULL && IsAncestor(t, x, t[a].pprev) && IsAncestor(t, x, t[b].pprev)
  {
    assert LinkOk(t, a) && LinkOk(t, b);
  }

  lemma AncestorOfWalk(t: Tree, i: nat, h: nat, x: int)
    requires Linked(t) && i < |t| && h <= t[i].nHeight
    ensures IsAncestor(t, x, Walk(t, i, h)) <==> IsAncestor(t, x, i) && t[x].nHeight <= h
  {
    if 0 <= x < |t| && t[x].nHeight <= h {
      WalkTwice(t, i, h, t[x].nHeight);
    }
  }

  ghost predicate Common(t: Tree, x: int, a: nat, b: nat)
    requires Linked(t) && a < |t| && b < |t|
  {
    IsAncestor(t, x, a) && IsAncestor(t, x, b)
  }

  /** r is the highest common ancestor of a and b, or NULL when there is none. */
  ghost predicate IsLastCommon(t: Tree, r: int, a: nat, b: nat)
    requires Linked(t) && a < |t| && b < |t|
  {
    && (r == NULL || Common(t, r, a, b))
    && forall x | Common(t, x, a, b) :: r != NULL && t[x].nHeight <= t[r].nHeight
  }

  // LastCommonAncestor
  method LastCommonAncestor(t: Tree, a0: nat, b0: nat) returns (r: int)
    requires WellFormed(t) && a0 < |t| && b0 < |t|
    ensures IsLastCommon(t, r, a0, b0)
  {
    var a: int, b: int := a0, b0;
    ghost var links: nat;
    if t[a].nHeight > t[b].nHeight {
      a, links := GetAncestor(t, a, t[b].nHeight);
    } else if t[b].nHeight > t[a].nHeight {
      b, links := GetAncestor(t, b, t[a].nHeight);
    }
    LeveledCommon(t, a0, b0, a, b);
    while a != b && a != NULL && b != NULL
      invariant (a == NULL) == (b == NULL)
      invariant a == NULL ==> forall x :: !Common(t, x, a0, b0)
      invariant a != NULL ==> 0 <= a < |t| && 0 <= b < |t| && t[a].nHeight == t[b].nHeight
      invariant a != NULL ==> forall x :: Common(t, x, a0, b0) <==> Common(t, x, a, b)
      decreases a + 1
    {
      forall x { CommonBelow(t, a, b, x); }
      a, b := t[a].pprev, t[b].pprev;
    }
    if a != NULL { SelfLast(t, a0, b0, a); }
    return a;
  }

  lemma LeveledCommon(t: Tree, a0: nat, b0: nat, a: nat, b: nat)
    requires Linked(t) && a0 < |t| && b0 < |t|
    requires var h := if t[a0].nHeight < t[b0].nHeight then t[a0].nHeight else t[b0].nHeight;
             a == Walk(t, a0, h) && b == Walk(t, b0, h)
    ensures forall x :: Common(t, x, a0, b0) <==> Common(t, x, a, b)
  {
    var h := t[a].nHeight;
    forall x ensures Common(t, x, a0, b0) <==> Common(t, x, a, b) {
      AncestorOfWalk(t, a0, h, x);
      AncestorOfWalk(t, b0, h, x);
    }
  }

  lemma SelfLast(t: Tree, a0: nat, b0: nat, r: nat)
    requires Linked(t) && a0 < |t| && b0 < |t| && r < |t|
    requires forall x :: Common(t, x, a0, b0) <==> Common(t, x, r, r)
    ensures IsLastCommon(t, r, a0, b0)
  {
    assert Common(t, r, r, r);
  }

  // ---------- the active chain ----------

  /** Every entry of c sits at its own height and is the parent of the next. */
  ghost predicate Path(t: Tree, c: seq<int>)
    requires Linked(t)
  {
    && (forall k | 0 <= k < |c| :: 0 <= c[k] < |t| && t[c[k]].nHeight == k)
    && (forall k | 0 < k < |c| :: t[c[k]].pprev == c[k - 1])
  }

  lemma {:induction false} PathWalk(t: Tree, c: seq<int>, k: nat, h: nat)
    requires Linked(t) && Path(t, c) && h <= k < |c|
    ensures Walk(t, c[k], h) == c[h]
    decreases k
  {
    if h < k {
      assert LinkOk(t, c[k]);
      PathWalk(t, c, k - 1, h);
    }
  }

  /** c is the path from the root to tip. */
  ghost predicate PathTo(t: Tree, c: seq<int>, tip: nat)
    requires Linked(t) && tip < |t|
  {
    |c| == t[tip].nHeight + 1 && forall k | 0 <= k < |c| :: c[k] == Walk(t, tip, k)
  }

  lemma PathToIsPath(t: Tree, c: seq<int>, tip: nat)
    requires Linked(t) && tip < |t| && PathTo(t, c, tip)
    ensures Path(t, c)
  {
    forall k | 0 < k < |c| ensures t[c[k]].pprev == c[k - 1] {
      WalkTwice(t, tip, k, k - 1);
      assert LinkOk(t, c[k]);
    }
  }

  class ActiveChain {
    var vChain: seq<int>

    constructor ()
      ensures vChain == []
    {
      vChain := [];
    }

    // CChain::SetTip
    method SetTip(t: Tree, tip: int)
      requires Linked(t) && Path(t, vChain) && (tip == NULL || 0 <= tip < |t|)
      modifies this
      ensures Path(t, vChain)
      ensures if tip == NULL then vChain == [] else PathTo(t, vChain, tip)
    {
      if tip == NULL {
        vChain := [];
        return;
      }
      ghost var before := vChain;
      var size := t[tip].nHeight + 1;
      vChain := if size <= |vChain| then vChain[..size] else vChain + seq(size - |vChain|, _ => NULL);
      var p := tip;
      ghost var h: int := size - 1;
      while p != NULL && vChain[t[p].nHeight] != p
        invariant |vChain| == size && -1 <= h < size
        invariant if p == NULL then h == -1 else 0 <= p < |t| && t[p].nHeight == h && Walk(t, tip, h) == p
        invariant forall k | h < k < size :: vChain[k] == Walk(t, tip, k)
        invariant forall k | 0 <= k <= h :: vChain[k] == if k < |before| then before[k] else NULL
        decreases h
      {
        assert LinkOk(t, p);
        if h > 0 { WalkTwice(t, tip, h, h - 1); }
        vChain := vChain[t[p].nHeight := p];
        p := t[p].pprev;
        h := h - 1;
      }
      if p != NULL {
        forall k | 0 <= k <= h ensures vChain[k] == Walk(t, tip, k) {
          PathWalk(t, before, h, k);
          WalkTwice(t, tip, h, k);
        }
      }
      PathToIsPath(t, vChain, tip);
    }

    // CChain::operator[]
    function At(height: int): int
      reads this
    {
      if height < 0 || height >= |vChain| then NULL else vChain[height]
    }

    // CChain::Contains
    predicate Contains(t: Tree, p: nat)
      requires p < |t|
      reads this
    {
      At(t[p].nHeight) == p
    }

    /** On a path, being at one's own height is the same as being an ancestor of the tip. */
    lemma ContainsIsAncestor(t: Tree, p: nat)
      requires Linked(t) && Path(t, vChain) && p < |t|
      ensures Contains(t, p) <==> vChain != [] && IsAncestor(t, p, vChain[|vChain| - 1])
    {
      if t[p].nHeight < |vChain| {
        PathWalk(t, vChain, |vChain| - 1, t[p].nHeight);
      }
    }

    /** r is the highest block of the chain among p's ancestors, or NULL when none is in the chain. */
    ghost predicate IsFork(t: Tree, r: int, p: nat)
      requires Linked(t) && p < |t|
      reads this
    {
      && (r == NULL || (IsAncestor(t, r, p) && Contains(t, r)))
      && forall x | IsAncestor(t, x, p) && Contains(t, x) :: r != NULL && t[x].nHeight <= t[r].nHeight
    }

    /** Looking from a lower ancestor hides no chain block, as long as it is not below the chain's reach. */
    lemma ForkFromLower(t: Tree, p: nat, h: nat, r: int)
      requires Linked(t) && Path(t, vChain) && p < |t| && h <= t[p].nHeight
      requires forall x | IsAncestor(t, x, p) && Contains(t, x) :: t[x].nHeight <= h
      requires IsFork(t, r, Walk(t, p, h))
      ensures IsFork(t, r, p)
    {
      AncestorOfWalk(t, p, h, r);
      forall x | IsAncestor(t, x, p) && Contains(t, x) ensures r != NULL && t[x].nHeight <= t[r].nHeight {
        AncestorOfWalk(t, p, h, x);
      }
    }

    // CChain::FindFork
    method FindFork(t: Tree, pindex: int) returns (r: int)
      requires WellFormed(t) && Path(t, vChain) && (pindex == NULL || 0 <= pindex < |t|)
      ensures if pindex == NULL then r == NULL else IsFork(t, r, pindex)
    {
      if pindex == NULL {
        return NULL;
      }
      r := pindex;
      if t[r].nHeight > |vChain| - 1 {
        ghost var links;
        r, links := GetAncestor(t, r, |vChain| - 1);
        if r == NULL {
          return;
        }
      }
      var from := r;
      r := WalkToChain(t, from);
      ForkFromLower(t, pindex, t[from].nHeight, r);
    }

    // the loop of FindFork
    method WalkToChain(t: Tree, from: nat) returns (r: int)
      requires Linked(t) && Path(t, vChain) && from < |t|
      ensures IsFork(t, r, from)
    {
      r := from;
      while r != NULL && !Contains(t, r)
        invariant r == NULL || (0 <= r < |t| && IsAncestor(t, r, from))
        invariant forall x | IsAncestor(t, x, from) && Contains(t, x) :: r != NULL && IsAncestor(t, x, r)
        decreases r + 1
      {
        ParentStep(t, from, r);
        r := t[r].pprev;
      }
    }

    lemma ParentStep(t: Tree, from: nat, r: nat)
      requires Linked(t) && from < |t| && r < |t| && IsAncestor(t, r, from) && !Contains(t, r)
      requires forall x | IsAncestor(t, x, from) && Contains(t, x) :: IsAncestor(t, x, r)
      ensures LinkOk(t, r)
      ensures t[r].pprev != NULL ==> IsAncestor(t, t[r].pprev, from)
      ensures forall x | IsAncestor(t, x, from) && Contains(t, x) ::
                t[r].pprev != NULL && IsAncestor(t, x, t[r].pprev)
    {
      assert LinkOk(t, r);
      if t[r].pprev != NULL {
        WalkTwice(t, from, t[r].nHeight, t[r].nHeight - 1);
      }
    }

    // the ancestor, through the chain's own index if possible
    method StepBack(t: Tree, p: nat, height: nat) returns (r: int)
      requires WellFormed(t) && Path(t, vChain) && p < |t| && height <= t[p].nHeight
      ensures r == Walk(t, p, height)
    {
      if Contains(t, p) {
        PathWalk(t, vChain, t[p].nHeight, height);
        r := At(height);
      } else {
        ghost var links;
        r, links := GetAncestor(t, p, height);
      }
    }

    // the entry behind entry k of a locator
    method NextEntry(t: Tree, ghost start: nat, p: nat, ghost k: nat, nStep: nat) returns (r: int)
      requires WellFormed(t) && Path(t, vChain) && start < |t| && p < |t| && nStep == StepAt(k)
      requires HeightAt(t[start].nHeight, k) > 0 && p == Walk(t, start, HeightAt(t[start].nHeight, k))
      ensures 0 <= r < |t| && r == Walk(t, start, HeightAt(t[start].nHeight, k + 1))
    {
      HeightStep(t[start].nHeight, k);
      var nHeight := if t[p].nHeight - nStep > 0 then t[p].nHeight - nStep else 0;
      WalkTwice(t, start, t[p].nHeight, nHeight);
      r := StepBack(t, p, nHeight);
    }

    // CChain::GetLocator
    method GetLocator(t: Tree, pindex: int) returns (vHave: seq<int>)
      requires WellFormed(t) && Path(t, vChain) && (pindex == NULL || 0 <= pindex < |t|)
      ensures var start := if pindex == NULL then At(|vChain| - 1) else pindex;
              if start == NULL then vHave == [] else IsLocator(t, start, vHave)
    {
      var p := if pindex == NULL then At(|vChain| - 1) else pindex;
      if p == NULL {
        return [];
      }
      var start: nat := p;
      ghost var h := t[start].nHeight;
      var nStep := 1;
      vHave := [];
      while true
        invariant nStep == StepAt(|vHave|)
        invariant 0 <= p < |t| && p == Walk(t, start, HeightAt(h, |vHave|))
        invariant Entries(t, start, vHave) && Above(h, |vHave|)
        decreases HeightAt(h, |vHave|)
      {
        EntriesNext(t, start, vHave, p);
        vHave := vHave + [p];
        if t[p].nHeight == 0 {
          return;
        }
        HeightStep(h, |vHave| - 1);
        p := NextEntry(t, start, p, |vHave| - 1, nStep);
        if |vHave| > 10 {
          nStep := nStep * 2;
        }
      }
    }
  }

  // ---------- the shape of a locator ----------

  /** The height of entry k of a locator that starts at height h: ten single steps, then doubling ones. */
  ghost function HeightAt(h: nat, k: nat): nat {
    var left := if k <= 10 then h - k else h - 9 - P2(k - 10);
    if left > 0 then left else 0
  }

  ghost function StepAt(k: nat): nat {
    if k <= 10 then 1 else P2(k - 10)
  }

  lemma HeightStep(h: nat, k: nat)
    requires HeightAt(h, k) > 0
    ensures HeightAt(h, k + 1) == (if HeightAt(h, k) > StepAt(k) then HeightAt(h, k) - StepAt(k) else 0) < HeightAt(h, k)
    ensures StepAt(k + 1) == if k + 1 > 10 then 2 * StepAt(k) else StepAt(k)
  {
    if k == 10 {
      assert P2(1) == 2;
    }
  }

  /** The ancestors at the heights of a locator. */
  ghost predicate Entries(t: Tree, start: nat, v: seq<int>)
    requires Linked(t) && start < |t|
  {
    forall k | 0 <= k < |v| :: v[k] == Walk(t, start, HeightAt(t[start].nHeight, k))
  }

  lemma EntriesNext(t: Tree, start: nat, v: seq<int>, p: nat)
    requires Linked(t) && start < |t| && Entries(t, start, v) && p == Walk(t, start, HeightAt(t[start].nHeight, |v|))
    ensures Entries(t, start, v + [p])
  {
    var w, h := v + [p], t[start].nHeight;
    forall k | 0 <= k < |w| ensures w[k] == Walk(t, start, HeightAt(h, k)) {
      assert w[k] == if k < |v| then v[k] else p;
    }
  }

  ghost predicate Above(h: nat, n: nat) {
    forall k | 0 <= k < n :: HeightAt(h, k) > 0
  }

  ghost predicate IsLocator(t: Tree, start: nat, v: seq<int>)
    requires Linked(t) && start < |t|
  {
    var h := t[start].nHeight;
    && |v| >= 1 && HeightAt(h, |v| - 1) == 0
    && Above(h, |v| - 1)
    && Entries(t, start, v)
  }

  /** From the start block strictly down to the root. */
  lemma LocatorDescends(t: Tree, start: nat, v: seq<int>)
    requires Linked(t) && start < |t| && IsLocator(t, start, v)
    ensures v[0] == start && t[v[|v| - 1]].nHeight == 0
    ensures forall k | 0 <= k < |v| - 1 :: t[v[k + 1]].nHeight < t[v[k]].nHeight
  {
    var h := t[start].nHeight;
    forall k | 0 <= k < |v| - 1 ensures t[v[k + 1]].nHeight < t[v[k]].nHeight {
      HeightStep(h, k);
    }
  }

  /** Exactly how long a locator is. */
  lemma LocatorLength(t: Tree, start: nat, v: seq<int>)
    requires Linked(t) && start < |t| && IsLocator(t, start, v)
    ensures var h := t[start].nHeight;
            if h <= 10 then |v| == h + 1 else |v| >= 12 && P2(|v| - 12) < h - 9 <= P2(|v| - 11)
  {
    var h, n := t[start].nHeight, |v|;
    if n >= 2 { assert HeightAt(h, n - 2) > 0; }
    if n == 12 { assert P2(1) == 2 && P2(0) == 1; }
  }

  /** At most 12 + ceil(log2 h) entries: 2^k >= h bounds the logarithm from above. */
  lemma LocatorBound(t: Tree, start: nat, v: seq<int>, k: nat)
    requires Linked(t) && start < |t| && IsLocator(t, start, v) && 1 <= t[start].nHeight <= P2(k)
    ensures |v| <= 12 + k
  {
    LocatorLength(t, start, v);
    if t[start].nHeight > 10 {
      P2Order(|v| - 12, k);
    }
  }

  /** The first entry of a locator at or below some depth is not much deeper: ten entries are exact, and behind them the
      depth at most doubles. */
  lemma LocatorNear(t: Tree, start: nat, v: seq<int>, d: nat) returns (k: nat)
    requires Linked(t) && start < |t| && IsLocator(t, start, v) && d <= t[start].nHeight
    ensures k < |v| && d <= t[start].nHeight - t[v[k]].nHeight <= if d <= 11 then d else 2 * d - 10
  {
    var h := t[start].nHeight;
    k := 0;
    while HeightAt(h, k) > h - d
      invariant k < |v| && (k > 0 ==> HeightAt(h, k - 1) > h - d)
      decreases HeightAt(h, k)
    {
      HeightStep(h, k);
      k := k + 1;
    }
    DepthGrows(h, k, d);
  }

  lemma DepthGrows(h: nat, k: nat, d: nat)
    requires d <= h && HeightAt(h, k) <= h - d && (k > 0 ==> HeightAt(h, k - 1) > h - d)
    ensures h - HeightAt(h, k) <= if d <= 11 then d else 2 * d - 10
  {
    if k == 11 {
      assert P2(1) == 2;
    } else if k > 11 {
      assert P2(k - 10) == 2 * P2(k - 11);
      if k == 12 { assert P2(1) == 2; }
    }
  }

  /** The block index only grows, and a chain stays a chain. */
  lemma PathGrows(t: Tree, t': Tree, c: seq<int>)
    requires Linked(t) && Linked(t') && |t| <= |t'| && t'[..|t|] == t && Path(t, c)
    ensures Path(t', c)
  {
    forall k | 0 <= k < |c| ensures t'[c[k]] == t[c[k]] {
      assert t'[..|t|][c[k]] == t'[c[k]];
    }
  }
}
