/** What it means that the selection of packages ended for a low fee (src/miner.cpp, src/policy/feerate.cpp):
    when everything left over really pays too little, and that otherwise it need not. */
module LowFees {
  import opened AncestorScore
  import opened Packages
  import opened Miner
  import Sets

  // ---------- shapes ----------

  /** fam(t) is t with those that must come before it. */
  ghost predicate IsFamily(fam: Tx -> set<Tx>, d: set<Tx>) {
    && (forall t | t in d :: t in fam(t) && fam(t) <= d)
    && (forall t, x | t in d && x in fam(t) :: fam(x) <= fam(t) && (t in fam(x) ==> x == t))
  }

  ghost predicate Apart(fam: Tx -> set<Tx>, u: Tx, v: Tx) {
    u in fam(v) || v in fam(u) || fam(u) !! fam(v)
  }

  /** No two transactions of d share an ancestor unless one is an ancestor of the other. */
  ghost predicate NoOverlap(fam: Tx -> set<Tx>, d: set<Tx>) {
    forall u, v | u in d && v in d :: Apart(fam, u, v)
  }

  /** s pays less than num for every den of its size. */
  ghost predicate PaysLess(s: set<Tx>, fee: Tx -> int, size: Tx -> int, num: int, den: int) {
    den * Sum(s, fee) < num * Sum(s, size)
  }

  /** The rate by which t is ranked, the lower of its own and that of its package, is too low. */
  ghost predicate ScoresLow(fam: Tx -> set<Tx>, t: Tx, fee: Tx -> int, size: Tx -> int, num: int, den: int) {
    PaysLess({t}, fee, size, num, den) || PaysLess(fam(t), fee, size, num, den)
  }

  ghost predicate AllScoreLow(fam: Tx -> set<Tx>, d: set<Tx>, fee: Tx -> int, size: Tx -> int, num: int, den: int) {
    forall t | t in d :: ScoresLow(fam, t, fee, size, num, den)
  }

  lemma PaysLessJoin(a: set<Tx>, b: set<Tx>, fee: Tx -> int, size: Tx -> int, num: int, den: int)
    requires a !! b && (a == {} || PaysLess(a, fee, size, num, den)) && PaysLess(b, fee, size, num, den)
    ensures PaysLess(a + b, fee, size, num, den)
  {
    assert a + b - a == b;
    SumParts(a + b, a, fee);
    SumParts(a + b, a, size);
    Split(den, Sum(a, fee), Sum(b, fee));
    Split(num, Sum(a, size), Sum(b, size));
  }

  lemma Split(k: int, a: int, b: int)
    ensures k * (a + b) == k * a + k * b
  {
  }

  /** A transaction that no other one of d needs. */
  lemma Topmost(fam: Tx -> set<Tx>, d: set<Tx>, y: Tx) returns (u: Tx)
    requires IsFamily(fam, d) && y in d
    ensures u in d && forall x | x in d && u in fam(x) :: x == u
    decreases |d| - |fam(y)|
  {
    u := y;
    if x :| x in d && y in fam(x) && x != y {
      assert fam(y) <= fam(x) && x !in fam(y);
      Sets.ProperSubsetSize(fam(y), fam(x));
      Sets.SubsetSize(fam(x), d);
      u := Topmost(fam, d, x);
    }
  }

  lemma PartIsFamily(fam: Tx -> set<Tx>, d: set<Tx>, part: set<Tx>)
    requires IsFamily(fam, d) && NoOverlap(fam, d) && part <= d && forall t | t in part :: fam(t) <= part
    ensures IsFamily(fam, part) && NoOverlap(fam, part)
  {
  }

  /** What is not needed by a topmost transaction needs nothing of what is. */
  lemma RestIsClosed(fam: Tx -> set<Tx>, d: set<Tx>, u: Tx)
    requires IsFamily(fam, d) && NoOverlap(fam, d) && u in d && forall x | x in d && u in fam(x) :: x == u
    ensures forall t | t in d - fam(u) :: fam(t) <= d - fam(u)
    ensures forall t | t in fam(u) - {u} :: fam(t) <= fam(u) - {u}
  {
    forall t | t in d - fam(u) ensures fam(t) <= d - fam(u) {
      assert Apart(fam, u, t);
    }
    forall t | t in fam(u) - {u} ensures fam(t) <= fam(u) - {u} {
      assert fam(t) <= fam(u);
    }
  }

  /** If every transaction of d scores low and none overlap, d as a whole pays too little. */
  lemma {:induction false} TreesPayLittle(fam: Tx -> set<Tx>, d: set<Tx>, fee: Tx -> int, size: Tx -> int, num: int, den: int)
    requires IsFamily(fam, d) && NoOverlap(fam, d) && AllScoreLow(fam, d, fee, size, num, den) && d != {}
    ensures PaysLess(d, fee, size, num, den)
    decreases d
  {
    var y :| y in d;
    var u := Topmost(fam, d, y);
    var inner, rest := fam(u) - {u}, d - fam(u);
    RestIsClosed(fam, d, u);
    PartIsFamily(fam, d, inner);
    PartIsFamily(fam, d, rest);
    if inner != {} { TreesPayLittle(fam, inner, fee, size, num, den); }
    if rest != {} { TreesPayLittle(fam, rest, fee, size, num, den); }
    assert ScoresLow(fam, u, fee, size, num, den);
    FamilyPaysLittle(fam, u, fee, size, num, den);
    PaysLessJoin(rest, fam(u), fee, size, num, den);
    assert rest + fam(u) == d;
  }

  lemma FamilyPaysLittle(fam: Tx -> set<Tx>, u: Tx, fee: Tx -> int, size: Tx -> int, num: int, den: int)
    requires u in fam(u) && ScoresLow(fam, u, fee, size, num, den)
    requires fam(u) - {u} == {} || PaysLess(fam(u) - {u}, fee, size, num, den)
    ensures PaysLess(fam(u), fee, size, num, den)
  {
    if PaysLess({u}, fee, size, num, den) {
      PaysLessJoin(fam(u) - {u}, {u}, fee, size, num, den);
      assert fam(u) - {u} + {u} == fam(u);
    }
  }

  // ---------- overlapping shapes ----------

  lemma {:induction false} SumOf(s: set<Tx>, f: Tx -> int, c: int)
    requires forall x | x in s :: f(x) == c
    ensures Sum(s, f) == c * |s|
    decreases s
  {
    if s != {} {
      var x :| x in s;
      SumSplit(s, x, f);
      SumOf(s - {x}, f, c);
    }
  }

  lemma SumOneOdd(s: set<Tx>, f: Tx -> int, w: Tx, c: int)
    requires w in s && forall x | x in s && x != w :: f(x) == c
    ensures Sum(s, f) == f(w) + c * (|s| - 1)
  {
    SumSplit(s, w, f);
    SumOf(s - {w}, f, c);
  }

  function TwoPay(u: Tx, v: Tx, amount: int): Tx -> int {
    (x: Tx) => if x == u || x == v then amount else 0
  }

  function OneLarge(w: Tx, extra: int): Tx -> int {
    (x: Tx) => if x == w then extra + 1 else 1
  }

  /** With an overlap there are fees and sizes for which every transaction scores low and yet the whole pays
      enough: two transactions that neither pay for the large ancestor they share. */
  lemma OverlapPays(fam: Tx -> set<Tx>, d: set<Tx>, u: Tx, v: Tx) returns (fee: Tx -> int, size: Tx -> int)
    requires IsFamily(fam, d) && u in d && v in d && !Apart(fam, u, v)
    ensures (forall t | t in d :: fee(t) >= 0 && size(t) > 0) && AllScoreLow(fam, d, fee, size, 1, 1) && !PaysLess(d, fee, size, 1, 1)
  {
    var w :| w in fam(u) && w in fam(v);
    var n := |d|;
    fee, size := TwoPay(u, v, n + 1), OneLarge(w, n);
    OneOfTwo(fam, d, u, v, w, n);
    OneOfTwo(fam, d, v, u, w, n);
    forall t | t in d ensures ScoresLow(fam, t, fee, size, 1, 1) {
      if t != u && t != v { PaysNothing(u, v, w, n, t); }
    }
    WholePays(d, u, v, w, n);
  }

  lemma PaysNothing(u: Tx, v: Tx, w: Tx, n: nat, t: Tx)
    requires t != u && t != v
    ensures PaysLess({t}, TwoPay(u, v, n + 1), OneLarge(w, n), 1, 1)
  {
    SumOf({t}, TwoPay(u, v, n + 1), 0);
    SumOneOdd({t}, OneLarge(w, n), t, 0);
  }

  lemma WholePays(d: set<Tx>, u: Tx, v: Tx, w: Tx, n: nat)
    requires u in d && v in d && w in d && u != v && n == |d|
    ensures !PaysLess(d, TwoPay(u, v, n + 1), OneLarge(w, n), 1, 1)
  {
    SumSplit(d, u, TwoPay(u, v, n + 1));
    SumOneOdd(d - {u}, TwoPay(u, v, n + 1), v, 0);
    SumOneOdd(d, OneLarge(w, n), w, 1);
  }

  lemma OneOfTwo(fam: Tx -> set<Tx>, d: set<Tx>, u: Tx, v: Tx, w: Tx, n: nat)
    requires IsFamily(fam, d) && u in d && v in d && !Apart(fam, u, v) && w in fam(u) && w in fam(v)
    ensures w != u && PaysLess(fam(u), TwoPay(u, v, n + 1), OneLarge(w, n), 1, 1) && PaysLess(fam(u), TwoPay(v, u, n + 1), OneLarge(w, n), 1, 1)
  {
    SumOneOdd(fam(u), TwoPay(u, v, n + 1), u, 0);
    SumOneOdd(fam(u), TwoPay(v, u, n + 1), u, 0);
    SumOneOdd(fam(u), OneLarge(w, n), w, 1);
    assert {u, w} <= fam(u);
    Sets.SubsetSize({u, w}, fam(u));
  }

  ghost predicate AlwaysLow(fam: Tx -> set<Tx>, d: set<Tx>) {
    forall fee: Tx -> int, size: Tx -> int, num: int, den: int ::
      AllScoreLow(fam, d, fee, size, num, den) ==> PaysLess(d, fee, size, num, den)
  }

  /** Exactly the shapes without overlap pay too little whenever all their transactions score low. */
  lemma LowExactly(fam: Tx -> set<Tx>, d: set<Tx>)
    requires IsFamily(fam, d) && d != {}
    ensures AlwaysLow(fam, d) <==> NoOverlap(fam, d)
  {
    if NoOverlap(fam, d) {
      forall fee: Tx -> int, size: Tx -> int, num: int, den: int | AllScoreLow(fam, d, fee, size, num, den)
        ensures PaysLess(d, fee, size, num, den)
      {
        TreesPayLittle(fam, d, fee, size, num, den);
      }
    } else {
      var u, v :| u in d && v in d && !Apart(fam, u, v);
      var fee, size := OverlapPays(fam, d, u, v);
    }
  }

  // ---------- the end of the selection ----------

  /** CFeeRate::GetFee for a rate and a size that are not negative: rounded down, but a positive rate asks something of
      every size. */
  function GetFee(perK: int, size: int): (r: int)
    ensures perK > 0 && size > 0 ==> r >= 1 && (r > 1 ==> 1000 * r <= perK * size) && perK * size < 1000 * (r + 1)
    ensures perK == 0 || size == 0 ==> r == 0
  {
    var fee := perK * size / 1000;
    if fee == 0 && size != 0 && perK > 0 then 1 else fee
  }

  lemma BelowFee(perK: int, size: int, fees: int)
    requires perK >= 0 && size > 0 && fees < GetFee(perK, size)
    ensures 1000 * fees < perK * size
  {
    NonNegative(perK, size);
    if perK > 0 { Positive(perK, size); }
  }

  /** A pool without MWEB data, whose fees no user has changed. */
  ghost predicate PlainPool(p: Pool) {
    forall t | t in p.order :: p.size(t) > 0 && p.mwebWeight(t) == 0 && !p.hasMweb(t) && p.modFee(t) == p.fee(t)
  }

  ghost predicate PlainFee(o: Options, perK: int) {
    perK >= 0 && forall size | size > 0 :: o.minFee(size, 0) == GetFee(perK, size)
  }

  lemma {:induction false} SumZero(s: set<Tx>, f: Tx -> int)
    requires forall x | x in s :: f(x) == 0
    ensures Sum(s, f) == 0
  {
    SumOf(s, f, 0);
  }

  /** The totals that are left of a transaction of a plain pool. */
  lemma PlainTotals(p: Pool, t: Tx, handled: seq<Tx>, inBlock: set<Tx>)
    requires PoolOk(p) && PlainPool(p) && t in p.order && t !in inBlock && Distinct(handled)
    requires Bounds(p, t, Reduced(p, t, handled), inBlock)
    ensures Reduced(p, t, handled).mwebWeight == 0 && Reduced(p, t, handled).size >= p.size(t) > 0
  {
    FamilyInPool(p, t);
    assert TxOk(p, t);
    OffWithout(p, t, false, p.cached(t), handled);
    SumZero(Family(p, t), p.mwebWeight);
    SumZero(Hit(p, t, handled), p.mwebWeight);
    NeedsOwnSize(p, t, Reduced(p, t, handled), inBlock);
  }

  /** A package that pays less than the rate gives its transaction a score below the rate. */
  lemma LowScore(p: Pool, t: Tx, tot: Totals, perK: int)
    requires perK >= 0 && tot.size > 0 && p.size(t) > 0 && 1000 * tot.modFees < perK * tot.size
    ensures Picked(ScoreOf(p, t, tot)).size > 0 && Lead(Rate(perK, 1000), Picked(ScoreOf(p, t, tot))) > 0
  {
    var e := ScoreOf(p, t, tot);
    PickedIsLower(e);
    if Picked(e) != Rate(e.allFees, e.allSize) {
      LeadStrict(Rate(perK, 1000), Rate(e.allFees, e.allSize), Picked(e));
    }
  }

  lemma NotBetterScore(a: Entry, b: Entry, r: Rate)
    requires !Better(a, b) && Picked(a).size > 0 && Picked(b).size > 0 && r.size > 0 && Lead(r, Picked(b)) > 0
    ensures Lead(r, Picked(a)) > 0
  {
    BetterByLead(a, b);
    LeadBack(Picked(a), Picked(b));
    LeadStrict(r, Picked(b), Picked(a));
  }

  /** The handled transactions of a plain pool are those in the block. */
  lemma PlainHandled(p: Pool, o: Options, start: set<Tx>, picked: seq<Pick>, inBlock: set<Tx>, failed: set<Tx>)
    requires PoolOk(p) && PlainPool(p) && PicksOk(p, o, start, picked, inBlock, failed)
    ensures Distinct(Handled(start, picked)) && Members(Handled(start, picked)) == inBlock
  {
    assert Willing(p, o);
    forall i | 0 <= i < |picked| ensures picked[i].whole {
      WillingPicksWhole(p, o, Held(start, picked[..i]), picked[i]);
    }
    HandledOnce(p, o, start, picked);
  }

  lemma PlainNeeds(p: Pool, u: Tx, inBlock: set<Tx>, handled: seq<Tx>)
    requires PoolOk(p) && PlainPool(p) && u in p.order && u !in inBlock && Distinct(handled) && Members(handled) == inBlock
    ensures Reduced(p, u, handled).size == Sum(Remaining(p, u, inBlock), p.size) > 0
    ensures Reduced(p, u, handled).modFees == Sum(Remaining(p, u, inBlock), p.modFee)
  {
    FamilyInPool(p, u);
    ReducedIsNeeded(p, u, inBlock, handled);
    SumZero(Hit(p, u, handled), Delta(p));
    SumSplit(Remaining(p, u, inBlock), u, p.size);
    SumMono({}, Remaining(p, u, inBlock) - {u}, p.size);
  }

  lemma SuffixDistinct(s: seq<Tx>, k: nat)
    requires Distinct(s) && k <= |s|
    ensures Distinct(s[k..])
  {
  }

  /** The transaction at which the selection of a plain pool ended scores below the minimum rate. */
  lemma EndScoresLow(p: Pool, o: Options, b: Block, log: seq<Refusal>, handled: seq<Tx>, t: Tx, k: nat, perK: int)
    requires PoolOk(p) && PlainPool(p) && PlainFee(o, perK) && Distinct(handled) && k <= |handled|
    requires PaysTooLittle(p, o, b, log, handled, t, k)
    ensures var e := Picked(ScoreOf(p, t, Reduced(p, t, handled[k..]))); e.size > 0 && Lead(Rate(perK, 1000), e) > 0
  {
    SuffixDistinct(handled, k);
    var tot := Reduced(p, t, handled[k..]);
    PlainTotals(p, t, handled[k..], b.inBlock);
    BelowFee(perK, tot.size, tot.modFees);
    LowScore(p, t, tot, perK);
  }

  ghost function Needed(p: Pool, inBlock: set<Tx>): Tx -> set<Tx> {
    (t: Tx) => Remaining(p, t, inBlock)
  }

  /** And so does everything that is left. */
  lemma LeftScoresLow(p: Pool, o: Options, start: set<Tx>, b: Block, h: History, perK: int, u: Tx)
    requires PoolOk(p) && PlainPool(p) && Ranked(p) && PlainFee(o, perK)
    requires Finished(p, o, start, b, FeeTooLow, h) && IsLeft(p, b, h.log, u)
    ensures ScoresLow(Needed(p, b.inBlock), u, p.modFee, p.size, perK, 1000)
  {
    var handled := Handled(start, h.picked);
    PlainHandled(p, o, start, h.picked, b.inBlock, Turned(h.log));
    var t, k: nat :| k <= |handled| && PaysTooLittle(p, o, b, h.log, handled, t, k);
    EndScoresLow(p, o, b, h.log, handled, t, k, perK);
    PlainNeeds(p, u, b.inBlock, handled);
    NotBetterScore(ScoreOf(p, u, Reduced(p, u, handled)), ScoreOf(p, t, Reduced(p, t, handled[k..])), Rate(perK, 1000));
    LowEither(p, u, Reduced(p, u, handled), b.inBlock, perK);
  }

  lemma LowEither(p: Pool, u: Tx, tot: Totals, inBlock: set<Tx>, perK: int)
    requires Lead(Rate(perK, 1000), Picked(ScoreOf(p, u, tot))) > 0
    requires tot.size == Sum(Remaining(p, u, inBlock), p.size) && tot.modFees == Sum(Remaining(p, u, inBlock), p.modFee)
    ensures ScoresLow(Needed(p, inBlock), u, p.modFee, p.size, perK, 1000)
  {
    assert {u} - {u} == {};
    SumSplit({u}, u, p.modFee);
    SumSplit({u}, u, p.size);
  }

  /** After an end for a low fee, any set of transactions left that holds what its members need, and in which
      none overlap, pays less than the minimum rate as a whole. */
  lemma LeftPaysTooLittle(p: Pool, o: Options, start: set<Tx>, b: Block, h: History, perK: int, d: set<Tx>)
    requires PoolOk(p) && PlainPool(p) && Ranked(p) && PlainFee(o, perK) && Finished(p, o, start, b, FeeTooLow, h)
    requires d != {} && forall t | t in d :: IsLeft(p, b, h.log, t) && Remaining(p, t, b.inBlock) <= d
    requires NoOverlap(Needed(p, b.inBlock), d)
    ensures PaysLess(d, p.modFee, p.size, perK, 1000)
  {
    NeededIsFamily(p, b.inBlock, d);
    forall t | t in d ensures ScoresLow(Needed(p, b.inBlock), t, p.modFee, p.size, perK, 1000) {
      assert IsLeft(p, b, h.log, t);
      LeftScoresLow(p, o, start, b, h, perK, t);
    }
    TreesPayLittle(Needed(p, b.inBlock), d, p.modFee, p.size, perK, 1000);
  }

  lemma NeededIsFamily(p: Pool, inBlock: set<Tx>, d: set<Tx>)
    requires PoolOk(p) && forall t | t in d :: t in p.order && t !in inBlock && Remaining(p, t, inBlock) <= d
    ensures IsFamily(Needed(p, inBlock), d)
  {
    forall t, x | t in d && x in Remaining(p, t, inBlock)
      ensures Remaining(p, x, inBlock) <= Remaining(p, t, inBlock) && (t in Remaining(p, x, inBlock) ==> x == t)
    {
      FamilyInPool(p, t);
      assert TxOk(p, t) && TxOk(p, x);
    }
  }

  // ---------- a package that would have paid ----------

  ghost predicate HasTx(p: Pool, t: Tx, ancestors: set<Tx>, size: int, fee: int, tot: Totals) {
    && p.ancestors(t) == ancestors && p.size(t) == size && p.weight(t) == 4 * size && p.fee(t) == p.modFee(t) == fee
    && p.sigOps(t) == p.mwebWeight(t) == 0 && !p.hasMweb(t) && p.cached(t) == tot && p.count(t) == |ancestors| + 1
  }

  /** 3 is large and pays nothing; its children 1 and 2 each pay for most of it; 4 is small and spends both. */
  ghost predicate IsDiamond(p: Pool) {
    && p.order == [1, 2, 3, 4]
    && HasTx(p, 1, {3}, 2, 9, Totals(12, 9, 0, 0)) && HasTx(p, 2, {3}, 2, 9, Totals(12, 9, 0, 0))
    && HasTx(p, 3, {}, 10, 0, Totals(10, 0, 0, 0)) && HasTx(p, 4, {1, 2, 3}, 1, 0, Totals(15, 18, 0, 0))
  }

  function Before(t: Tx): set<Tx> {
    if t == 1 || t == 2 then {3} else if t == 4 then {1, 2, 3} else {}
  }

  lemma DiamondExists() returns (p: Pool)
    ensures IsDiamond(p)
  {
    var size := (t: Tx) => if t == 3 then 10 else if t == 4 then 1 else 2;
    var fee := (t: Tx) => if t == 1 || t == 2 then 9 else 0;
    var none := (t: Tx) => 0;
    var no := (t: Tx) => false;
    p := Pool([1, 2, 3, 4], (t: Tx) => Before(t), size, (t: Tx) => 4 * size(t), none, none, fee, fee, (t: Tx) => true, no, no, no,
              (t: Tx) => if t == 3 then Totals(10, 0, 0, 0) else if t == 4 then Totals(15, 18, 0, 0) else Totals(12, 9, 0, 0),
              (t: Tx) => |Before(t)| + 1);
  }

  lemma SumOne(a: Tx, f: Tx -> int)
    ensures Sum({a}, f) == f(a)
  {
    SumOneOdd({a}, f, a, 0);
  }

  lemma SumTwo(a: Tx, b: Tx, f: Tx -> int)
    requires a != b
    ensures Sum({a, b}, f) == f(a) + f(b)
  {
    SumSplit({a, b}, a, f);
    assert {a, b} - {a} == {b};
    SumOne(b, f);
  }

  lemma SumFour(f: Tx -> int)
    ensures Sum({1, 2, 3, 4}, f) == f(1) + f(2) + f(3) + f(4)
  {
    SumSplit({1, 2, 3, 4}, 1, f);
    assert {1, 2, 3, 4} - {1} == {2, 3, 4};
    SumSplit({2, 3, 4}, 2, f);
    assert {2, 3, 4} - {2} == {3, 4};
    SumTwo(3, 4, f);
  }

  lemma DiamondFamilies(p: Pool, f: Tx -> int)
    requires IsDiamond(p)
    ensures Sum(Family(p, 1), f) == f(3) + f(1) && Sum(Family(p, 2), f) == f(3) + f(2)
    ensures Sum(Family(p, 3), f) == f(3) && Sum(Family(p, 4), f) == f(1) + f(2) + f(3) + f(4)
  {
    assert Family(p, 1) == {3, 1} && Family(p, 2) == {3, 2} && Family(p, 3) == {3} && Family(p, 4) == {1, 2, 3, 4};
    SumTwo(3, 1, f);
    SumTwo(3, 2, f);
    SumOne(3, f);
    SumFour(f);
  }

  ghost predicate ClosedIn(p: Pool, s: set<Tx>) {
    forall a | a in s :: a in p.order && p.ancestors(a) <= s
  }

  lemma TxFrom(p: Pool, t: Tx, ancestors: set<Tx>, size: int, fee: int, tot: Totals)
    requires HasTx(p, t, ancestors, size, fee, tot) && t !in ancestors && size > 0
    requires ClosedIn(p, ancestors) && SumsTo(p, t, tot)
    ensures TxOk(p, t)
  {
  }

  /** The sums over a family of a diamond, as one fact. */
  ghost predicate SumsTo(p: Pool, t: Tx, tot: Totals) {
    && Sum(Family(p, t), p.size) == tot.size && Sum(Family(p, t), p.modFee) == tot.modFees
    && Sum(Family(p, t), p.sigOps) == tot.sigOps && Sum(Family(p, t), p.mwebWeight) == tot.mwebWeight
  }

  lemma DiamondSums(p: Pool)
    requires IsDiamond(p)
    ensures SumsTo(p, 1, Totals(12, 9, 0, 0)) && SumsTo(p, 2, Totals(12, 9, 0, 0))
    ensures SumsTo(p, 3, Totals(10, 0, 0, 0)) && SumsTo(p, 4, Totals(15, 18, 0, 0))
  {
    DiamondFamilies(p, p.size);
    DiamondFamilies(p, p.modFee);
    DiamondFamilies(p, p.sigOps);
    DiamondFamilies(p, p.mwebWeight);
  }

  lemma DiamondClosed(p: Pool)
    requires IsDiamond(p)
    ensures ClosedIn(p, {}) && ClosedIn(p, {3}) && ClosedIn(p, {1, 2, 3})
  {
    assert 1 in p.order && 2 in p.order && 3 in p.order;
    assert p.ancestors(1) <= {1, 2, 3} && p.ancestors(2) <= {1, 2, 3} && p.ancestors(3) <= {1, 2, 3};
  }

  lemma DiamondTxs(p: Pool)
    requires IsDiamond(p)
    ensures TxOk(p, 1) && TxOk(p, 2) && TxOk(p, 3) && TxOk(p, 4)
  {
    DiamondSums(p);
    DiamondClosed(p);
    TxFrom(p, 1, {3}, 2, 9, Totals(12, 9, 0, 0));
    TxFrom(p, 2, {3}, 2, 9, Totals(12, 9, 0, 0));
    TxFrom(p, 3, {}, 10, 0, Totals(10, 0, 0, 0));
    TxFrom(p, 4, {1, 2, 3}, 1, 0, Totals(15, 18, 0, 0));
  }

  lemma FourMembers(s: seq<Tx>, t: Tx)
    requires s == [1, 2, 3, 4] && t in s
    ensures t == 1 || t == 2 || t == 3 || t == 4
  {
  }

  lemma FourDistinct(s: seq<Tx>)
    requires s == [1, 2, 3, 4]
    ensures Distinct(s)
  {
    forall i | 0 <= i < 4 ensures s[i] == i + 1 {
      assert i == 0 || i == 1 || i == 2 || i == 3;
    }
  }

  lemma DiamondIsPool(p: Pool)
    requires IsDiamond(p)
    ensures PoolOk(p) && PlainPool(p)
  {
    forall t | t in p.order ensures TxOk(p, t) {
      DiamondTxs(p);
      FourMembers(p.order, t);
    }
    FourDistinct(p.order);
    forall t | t in p.order ensures p.size(t) > 0 && p.mwebWeight(t) == 0 && !p.hasMweb(t) && p.modFee(t) == p.fee(t) {
      FourMembers(p.order, t);
    }
  }

  lemma DiamondScores(p: Pool)
    requires IsDiamond(p)
    ensures Picked(ScoreOf(p, 1, p.cached(1))) == Rate(9, 12) && Picked(ScoreOf(p, 2, p.cached(2))) == Rate(9, 12)
    ensures Picked(ScoreOf(p, 3, p.cached(3))) == Rate(0, 10) && Picked(ScoreOf(p, 4, p.cached(4))) == Rate(0, 1)
  {
  }

  lemma DiamondIsRanked(p: Pool)
    requires IsDiamond(p)
    ensures Ranked(p)
  {
    DiamondScores(p);
  }

  /** Nothing is in the block and nothing was turned down.  The first transaction of the pool, which is the
      best, pays less than a unit of fee for each unit of size, so the selection ends. */
  lemma DiamondStops(p: Pool, o: Options)
    requires IsDiamond(p) && PlainFee(o, 1000)
    ensures PaysTooLittle(p, o, EMPTY_BLOCK, [], [], p.order[0], 0)
  {
    DiamondIsPool(p);
    DiamondScores(p);
    CachedBounds(p, 1, {});
    assert o.minFee(12, 0) == 12;
    var none: seq<Tx> := [];
    assert none[0..] == none;
  }

  lemma DiamondEnds(p: Pool, o: Options)
    requires IsDiamond(p) && PlainFee(o, 1000) && WithinLimits(EMPTY_BLOCK, o)
    ensures Finished(p, o, {}, EMPTY_BLOCK, FeeTooLow, History([], [], 0, 0))
  {
    DiamondStops(p, o);
    assert Handled({}, []) == [];
  }

  /** Yet the package of the last one, all of it left, pays more. */
  lemma DiamondPays(p: Pool)
    requires IsDiamond(p)
    ensures (forall u | u in Family(p, 4) :: IsLeft(p, EMPTY_BLOCK, [], u)) && !PaysLess(Family(p, 4), p.modFee, p.size, 1000, 1000)
  {
    DiamondSums(p);
    forall u | u in Family(p, 4) ensures IsLeft(p, EMPTY_BLOCK, [], u) {
      assert u in p.order;
    }
  }

  /** It is a shape with an overlap. */
  lemma DiamondOverlaps(p: Pool)
    requires IsDiamond(p)
    ensures !Apart(Needed(p, {}), 1, 2)
  {
    assert Remaining(p, 1, {}) == {1, 3} && Remaining(p, 2, {}) == {2, 3};
    assert 3 in Needed(p, {})(1) && 3 in Needed(p, {})(2);
  }
}
