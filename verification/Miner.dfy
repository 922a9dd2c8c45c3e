/** Block assembly by ancestor packages (src/miner.cpp, src/miner.h).

    Whether the MWEB miner accepts a transaction is left open: the results hold for every answer. */
module Miner {
  import opened AncestorScore
  import opened Packages
  import Sets

  const MAX_BLOCK_WEIGHT := 4000000
  const MAX_BLOCK_SIGOPS_COST := 80000
  const MAX_MINE_WEIGHT := 20000
  const MAX_CONSECUTIVE_FAILURES := 1000

  // ---------- SortForBlock ----------

  ghost predicate SortedByCount(p: Pool, s: seq<Tx>) {
    forall i, j | 0 <= i < j < |s| :: p.count(s[i]) <= p.count(s[j])
  }

  method LeastCount(p: Pool, s: set<Tx>) returns (x: Tx)
    requires s != {}
    ensures x in s && forall y | y in s :: p.count(x) <= p.count(y)
  {
    var rest := s;
    x :| x in rest;
    rest := rest - {x};
    while rest != {}
      invariant rest <= s && x in s
      invariant forall y | y in s - rest :: p.count(x) <= p.count(y)
      decreases rest
    {
      var y :| y in rest;
      rest := rest - {y};
      if p.count(y) < p.count(x) {
        x := y;
      }
    }
  }

  method SortForBlock(p: Pool, package: set<Tx>) returns (sorted: seq<Tx>)
    ensures SortedByCount(p, sorted) && Distinct(sorted)
    ensures forall x :: x in sorted <==> x in package
  {
    sorted := [];
    var rest := package;
    while rest != {}
      invariant rest <= package
      invariant forall x :: x in sorted <==> x in package && x !in rest
      invariant SortedByCount(p, sorted) && Distinct(sorted)
      invariant forall i, y | 0 <= i < |sorted| && y in rest :: p.count(sorted[i]) <= p.count(y)
      decreases rest
    {
      var x := LeastCount(p, rest);
      assert forall i | 0 <= i < |sorted| :: sorted[i] in sorted;
      sorted := sorted + [x];
      rest := rest - {x};
    }
  }

  /** An ancestor has fewer ancestors. */
  lemma AncestorCountsLess(p: Pool, t: Tx, a: Tx)
    requires PoolOk(p) && t in p.order && a in p.ancestors(t)
    ensures a in p.order && p.count(a) < p.count(t)
  {
    assert TxOk(p, t) && TxOk(p, a);
    assert a !in p.ancestors(a);
    Sets.SubsetSize(p.ancestors(a) + {a}, p.ancestors(t));
  }

  /** In a package sorted by ancestor count, every ancestor of the k-th transaction is already
      in the block or comes earlier. */
  lemma SortedIsTopological(p: Pool, iter: Tx, inBlock: set<Tx>, sorted: seq<Tx>, k: nat)
    requires PoolOk(p) && iter in p.order && k < |sorted| && SortedByCount(p, sorted)
    requires forall x :: x in sorted <==> x in Remaining(p, iter, inBlock)
    ensures sorted[k] in p.order
    ensures forall a | a in p.ancestors(sorted[k]) :: a in inBlock || a in sorted[..k]
  {
    var t: Tx := sorted[k];
    assert t in sorted && TxOk(p, iter);
    FamilyInPool(p, iter);
    assert TxOk(p, t);
    forall a | a in p.ancestors(t) ensures a in inBlock || a in sorted[..k] {
      assert a in Family(p, iter);
      if a !in inBlock {
        assert a in sorted;
        var j :| 0 <= j < |sorted| && sorted[j] == a;
        AncestorCountsLess(p, t, a);
        assert j < k;
        assert sorted[..k][j] == a;
      }
    }
  }

  // ---------- BlockAssembler ----------

  /** All ancestors of order[i] come before it. */
  ghost predicate AncestorsBefore(p: Pool, order: seq<Tx>, i: nat)
    requires i < |order|
  {
    forall a | a in p.ancestors(order[i]) :: a in order[..i]
  }

  ghost predicate OrderOk(p: Pool, order: seq<Tx>, inBlock: set<Tx>) {
    && (forall x :: x in inBlock <==> x in order)
    && Distinct(order)
    && (forall i | 0 <= i < |order| :: order[i] in p.order && AncestorsBefore(p, order, i))
  }

  /** Transactions that are not MWEB-only, which is what the block itself lists. */
  ghost function Visible(p: Pool, order: seq<Tx>): seq<Tx> {
    if order == [] then [] else
      var t := order[|order| - 1];
      Visible(p, order[..|order| - 1]) + if p.mwebOnly(t) then [] else [t]
  }

  lemma OrderStep(p: Pool, order: seq<Tx>, inBlock: set<Tx>, t: Tx)
    requires OrderOk(p, order, inBlock) && t !in inBlock && t in p.order && p.ancestors(t) <= inBlock
    ensures OrderOk(p, order + [t], inBlock + {t})
    ensures Visible(p, order + [t]) == Visible(p, order) + if p.mwebOnly(t) then [] else [t]
  {
    var after := order + [t];
    assert after[..|order|] == order;
    forall i | 0 <= i < |after| ensures after[i] in p.order && AncestorsBefore(p, after, i) {
      if i < |order| { assert AncestorsBefore(p, order, i) && after[..i] == order[..i]; }
    }
  }

  lemma BlockIsClosed(p: Pool, order: seq<Tx>, inBlock: set<Tx>, t: Tx)
    requires OrderOk(p, order, inBlock) && t in inBlock
    ensures p.ancestors(t) <= inBlock
  {
    var i :| 0 <= i < |order| && order[i] == t;
    assert AncestorsBefore(p, order, i);
    forall a | a in p.ancestors(t) ensures a in inBlock { assert a in order[..i]; }
  }

  /** The answer of the MWEB miner about a transaction with MWEB data. */
  datatype MwebAnswer = Refused | BadData | Accepted

  /** The fields of BlockAssembler that describe the block under construction.  `order` lists
      all included transactions. */
  datatype Block = Block(
    inBlock: set<Tx>, vtx: seq<Tx>, nBlockTx: int,
    nBlockWeight: int, nBlockSigOpsCost: int, nBlockMWEBWeight: int, nFees: int, order: seq<Tx>)

  datatype Options = Options(
    nBlockMaxWeight: int, fIncludeWitness: bool, fIncludeMWEB: bool,
    // blockMinFeeRate.GetTotalFee
    minFee: (int, int) -> int,
    // What the MWEB miner answers, given the number of transactions included so far.
    mweb: (nat, Tx) -> MwebAnswer)

  /** The running totals are exact. */
  ghost predicate TotalsOk(p: Pool, b: Block) {
    && b.nBlockWeight == 4000 + Sum(b.inBlock, p.weight)
    && b.nBlockSigOpsCost == 400 + Sum(b.inBlock, p.sigOps)
    && b.nBlockMWEBWeight == Sum(b.inBlock, p.mwebWeight)
    && b.nFees == Sum(b.inBlock, p.fee)
  }

  /** The order is valid and the books are in order. */
  ghost predicate BlockOk(p: Pool, b: Block) {
    && OrderOk(p, b.order, b.inBlock)
    && b.vtx == Visible(p, b.order) && b.nBlockTx == |b.vtx|
    && TotalsOk(p, b)
  }

  ghost predicate WithinLimits(b: Block, o: Options) {
    b.nBlockWeight <= o.nBlockMaxWeight && b.nBlockSigOpsCost < MAX_BLOCK_SIGOPS_COST && b.nBlockMWEBWeight < MAX_MINE_WEIGHT
  }

  /** resetBlock: room is reserved for the coinbase. */
  const EMPTY_BLOCK := Block({}, [], 0, 4000, 400, 0, 0, [])

  /** The constructor's limits on the weight option. */
  function MaxWeight(option: int): (w: int)
    ensures 4000 <= w <= MAX_BLOCK_WEIGHT - 4000
    ensures 4000 <= option <= MAX_BLOCK_WEIGHT - 4000 ==> w == option
    ensures option < 4000 ==> w == 4000
    ensures option > MAX_BLOCK_WEIGHT - 4000 ==> w == MAX_BLOCK_WEIGHT - 4000
  {
    var capped := if option < MAX_BLOCK_WEIGHT - 4000 then option else MAX_BLOCK_WEIGHT - 4000;
    if capped > 4000 then capped else 4000
  }

  predicate TestPackage(b: Block, o: Options, tot: Totals) {
    && b.nBlockWeight + WITNESS_SCALE_FACTOR * tot.size < o.nBlockMaxWeight
    && b.nBlockSigOpsCost + tot.sigOps < MAX_BLOCK_SIGOPS_COST
    && b.nBlockMWEBWeight + tot.mwebWeight < MAX_MINE_WEIGHT
  }

  predicate TestPackageTransactions(p: Pool, o: Options, package: set<Tx>, failed: set<Tx>) {
    forall t | t in package ::
      p.isFinal(t) && (o.fIncludeWitness || !p.hasWitness(t)) && (o.fIncludeMWEB || !p.hasMweb(t)) && t !in failed
  }

  // ---------- what may be mined ----------

  /** The transaction is final, and brings no witness or MWEB data where the block takes none. */
  ghost predicate Mineable(p: Pool, o: Options, t: Tx) {
    p.isFinal(t) && (p.hasWitness(t) ==> o.fIncludeWitness) && (p.hasMweb(t) ==> o.fIncludeMWEB)
  }

  /** The MWEB miner, asked when n transactions are in the block, has nothing against it. */
  ghost predicate Wanted(p: Pool, o: Options, n: nat, t: Tx) {
    p.hasMweb(t) ==> o.mweb(n, t) != Refused && (o.mweb(n, t) == BadData ==> p.mwebOnly(t))
  }

  /** One of the package may not be mined, or has been turned down before. */
  ghost predicate Unready(p: Pool, o: Options, package: set<Tx>, before: set<Tx>) {
    exists t :: t in package && (!Mineable(p, o, t) || t in before)
  }

  /** A total that does not leave the block below its limits. */
  ghost predicate Oversized(o: Options, b: Block, tot: Totals) {
    || b.nBlockWeight + 4 * tot.size >= o.nBlockMaxWeight
    || b.nBlockSigOpsCost + tot.sigOps >= MAX_BLOCK_SIGOPS_COST
    || b.nBlockMWEBWeight + tot.mwebWeight >= MAX_MINE_WEIGHT
  }

  /** All that is in the block beyond `start` may be mined, and was wanted when it was put in. */
  ghost predicate Admitted(p: Pool, o: Options, start: set<Tx>, b: Block) {
    && (forall t | t in b.inBlock && t !in start :: Mineable(p, o, t))
    && (forall i | 0 <= i < |b.order| && b.order[i] !in start :: Wanted(p, o, i, b.order[i]))
  }

  /** The block has grown by transactions that were wanted. */
  ghost predicate Grew(p: Pool, o: Options, b0: Block, b: Block) {
    b0.order <= b.order && forall i | |b0.order| <= i < |b.order| :: Wanted(p, o, i, b.order[i])
  }

  lemma {:induction false} OrderSize(order: seq<Tx>, inBlock: set<Tx>)
    requires Distinct(order) && forall x :: x in inBlock <==> x in order
    ensures |order| == |inBlock|
    decreases |order|
  {
    if order != [] {
      var last := |order| - 1;
      forall x ensures x in inBlock - {order[last]} <==> x in order[..last] {
        assert order == order[..last] + [order[last]];
      }
      OrderSize(order[..last], inBlock - {order[last]});
    } else {
      assert inBlock == {};
    }
  }

  lemma GrewNext(p: Pool, o: Options, b0: Block, b: Block, t: Tx)
    requires Grew(p, o, b0, b) && Accepts(p, o, b, t)
    ensures Grew(p, o, b0, Including(p, b, t))
  {
    assert Wanted(p, o, |b.order|, t);
  }

  lemma AdmittedGrows(p: Pool, o: Options, start: set<Tx>, b0: Block, b: Block, package: set<Tx>)
    requires Admitted(p, o, start, b0) && Grew(p, o, b0, b) && b0.inBlock <= b.inBlock <= b0.inBlock + package
    requires forall t | t in package :: Mineable(p, o, t)
    ensures Admitted(p, o, start, b)
  {
    forall i | 0 <= i < |b.order| && b.order[i] !in start ensures Wanted(p, o, i, b.order[i]) {
      if i < |b0.order| { assert b0.order[i] == b.order[i]; }
    }
  }

  /** The block with t put in. */
  function Including(p: Pool, b: Block, t: Tx): Block {
    Block(b.inBlock + {t}, if p.mwebOnly(t) then b.vtx else b.vtx + [t], if p.mwebOnly(t) then b.nBlockTx else b.nBlockTx + 1,
          b.nBlockWeight + p.weight(t), b.nBlockSigOpsCost + p.sigOps(t), b.nBlockMWEBWeight + p.mwebWeight(t),
          b.nFees + p.fee(t), b.order + [t])
  }

  predicate Accepts(p: Pool, o: Options, b: Block, t: Tx) {
    !p.hasMweb(t) ||
    (match o.mweb(|b.order|, t)
     case Refused => false
     case BadData => p.mwebOnly(t)
     case Accepted => true)
  }

  lemma IncludingKeeps(p: Pool, b: Block, t: Tx)
    requires BlockOk(p, b) && t in p.order && t !in b.inBlock && p.ancestors(t) <= b.inBlock
    ensures BlockOk(p, Including(p, b, t))
  {
    OrderStep(p, b.order, b.inBlock, t);
    SumGrows(b.inBlock, t, p);
  }

  lemma SumGrows(s: set<Tx>, t: Tx, p: Pool)
    requires t !in s
    ensures Sum(s + {t}, p.weight) == Sum(s, p.weight) + p.weight(t)
    ensures Sum(s + {t}, p.sigOps) == Sum(s, p.sigOps) + p.sigOps(t)
    ensures Sum(s + {t}, p.mwebWeight) == Sum(s, p.mwebWeight) + p.mwebWeight(t)
    ensures Sum(s + {t}, p.fee) == Sum(s, p.fee) + p.fee(t)
  {
    assert s + {t} - {t} == s;
    SumSplit(s + {t}, t, p.weight);
    SumSplit(s + {t}, t, p.sigOps);
    SumSplit(s + {t}, t, p.mwebWeight);
    SumSplit(s + {t}, t, p.fee);
  }

  // ---------- adding a package ----------

  ghost predicate IsPackage(p: Pool, b: Block, iter: Tx, sorted: seq<Tx>) {
    && iter in p.order && iter !in b.inBlock && SortedByCount(p, sorted) && Distinct(sorted)
    && forall x :: x in sorted <==> x in Remaining(p, iter, b.inBlock)
  }

  /** What is used up and what the rest of the package may still use stay within the price of
      the whole package. */
  ghost predicate Affordable(p: Pool, b0: Block, b: Block, package: set<Tx>) {
    && b.nBlockWeight + WITNESS_SCALE_FACTOR * Sum(package - b.inBlock, p.size) <= b0.nBlockWeight + WITNESS_SCALE_FACTOR * Sum(package, p.size)
    && b.nBlockSigOpsCost + Sum(package - b.inBlock, p.sigOps) <= b0.nBlockSigOpsCost + Sum(package, p.sigOps)
    && b.nBlockMWEBWeight + Sum(package - b.inBlock, p.mwebWeight) <= b0.nBlockMWEBWeight + Sum(package, p.mwebWeight)
  }

  lemma AffordNext(p: Pool, b0: Block, b: Block, package: set<Tx>, t: Tx)
    requires Affordable(p, b0, b, package) && t in package && t !in b.inBlock && TxOk(p, t)
    ensures Affordable(p, b0, Including(p, b, t), package)
  {
    var rest := package - b.inBlock;
    assert package - (b.inBlock + {t}) == rest - {t};
    SumSplit(rest, t, p.size);
    SumSplit(rest, t, p.sigOps);
    SumSplit(rest, t, p.mwebWeight);
  }

  ghost predicate Added(b0: Block, b: Block, sorted: seq<Tx>, i: nat)
    requires i <= |sorted|
  {
    HasPrefix(b0.inBlock, b.inBlock, sorted, i)
  }

  ghost predicate HasPrefix(before: set<Tx>, after: set<Tx>, sorted: seq<Tx>, i: nat)
    requires i <= |sorted|
  {
    forall x :: x in after <==> x in before || x in sorted[..i]
  }

  lemma AddedNext(before: set<Tx>, after: set<Tx>, sorted: seq<Tx>, i: nat)
    requires i < |sorted| && HasPrefix(before, after, sorted, i)
    ensures HasPrefix(before, after + {sorted[i]}, sorted, i + 1)
  {
    assert sorted[..i + 1] == sorted[..i] + [sorted[i]];
  }

  // Puts the transactions of a sorted package into the block, one by one, up to the first that
  // the MWEB miner does not take.
  method AddPackage(p: Pool, o: Options, b0: Block, sorted: seq<Tx>, ghost iter: Tx) returns (b: Block, i: nat)
    requires PoolOk(p) && BlockOk(p, b0) && IsPackage(p, b0, iter, sorted)
    ensures i <= |sorted| && BlockOk(p, b) && Added(b0, b, sorted, i)
    ensures i < |sorted| ==> !Wanted(p, o, |b.order|, sorted[i])
    ensures Affordable(p, b0, b, Remaining(p, iter, b0.inBlock)) && Grew(p, o, b0, b)
  {
    b, i := b0, 0;
    ghost var package := Remaining(p, iter, b0.inBlock);
    assert package - b.inBlock == package;
    while i < |sorted|
      invariant i <= |sorted| && BlockOk(p, b) && Added(b0, b, sorted, i)
      invariant Affordable(p, b0, b, package) && Grew(p, o, b0, b)
    {
      var t := sorted[i];
      if !Accepts(p, o, b, t) {
        return;
      }
      NextIsReady(p, b0, b, sorted, iter, i);
      IncludingKeeps(p, b, t);
      AffordNext(p, b0, b, package, t);
      AddedNext(b0.inBlock, b.inBlock, sorted, i);
      GrewNext(p, o, b0, b, t);
      b, i := Including(p, b, t), i + 1;
    }
  }

  lemma NextIsReady(p: Pool, b0: Block, b: Block, sorted: seq<Tx>, iter: Tx, i: nat)
    requires PoolOk(p) && IsPackage(p, b0, iter, sorted) && i < |sorted| && Added(b0, b, sorted, i)
    ensures sorted[i] in Remaining(p, iter, b0.inBlock) && sorted[i] !in b.inBlock
    ensures sorted[i] in p.order && TxOk(p, sorted[i]) && p.ancestors(sorted[i]) <= b.inBlock
  {
    var t: Tx := sorted[i];
    assert t in sorted;
    assert t !in sorted[..i];
    SortedIsTopological(p, iter, b0.inBlock, sorted, i);
    forall a | a in p.ancestors(t) ensures a in b.inBlock {
      assert a in b0.inBlock || a in sorted[..i];
    }
  }

  /** A package that passed TestPackage fits, and so does any part of it. */
  lemma FitsLimits(p: Pool, o: Options, b0: Block, b: Block, iter: Tx, tot: Totals)
    requires PoolOk(p) && iter in p.order && Bounds(p, iter, tot, b0.inBlock) && TestPackage(b0, o, tot)
    requires Affordable(p, b0, b, Remaining(p, iter, b0.inBlock))
    ensures WithinLimits(b, o)
  {
    FamilyInPool(p, iter);
    var package := Remaining(p, iter, b0.inBlock);
    SumMono(package - b.inBlock, package, p.size);
    SumMono(package - b.inBlock, package, p.sigOps);
    SumMono(package - b.inBlock, package, p.mwebWeight);
  }

  /** A bound stays a bound when the block grows. */
  lemma BoundsGrow(p: Pool, t: Tx, tot: Totals, small: set<Tx>, large: set<Tx>)
    requires PoolOk(p) && t in p.order && Bounds(p, t, tot, small) && small <= large
    ensures Bounds(p, t, tot, large)
  {
    FamilyInPool(p, t);
    assert Remaining(p, t, large) <= Remaining(p, t, small);
    SumMono(Remaining(p, t, large), Remaining(p, t, small), p.size);
    SumMono(Remaining(p, t, large), Remaining(p, t, small), p.sigOps);
    SumMono(Remaining(p, t, large), Remaining(p, t, small), p.mwebWeight);
  }

  lemma ErasedOk(p: Pool, mod: Modified, package: set<Tx>, small: set<Tx>, large: set<Tx>)
    requires PoolOk(p) && ModifiedOk(p, mod, small) && small <= large <= small + package
    ensures ModifiedOk(p, mod - package, large)
  {
    forall t | t in mod - package ensures Listed(p, mod - package, large, t) {
      assert Listed(p, mod, small, t);
      BoundsGrow(p, t, mod[t], small, large);
    }
  }

  function OnlyUnconfirmed(testSet: set<Tx>, inBlock: set<Tx>): set<Tx> {
    testSet - inBlock
  }

  lemma PackageIsRemaining(p: Pool, iter: Tx, inBlock: set<Tx>)
    requires iter !in inBlock
    ensures OnlyUnconfirmed(p.ancestors(iter), inBlock) + {iter} == Remaining(p, iter, inBlock)
  {
  }

  /** A transaction that failed is never taken up again. */
  lemma FailedIsRefused(p: Pool, o: Options, t: Tx, inBlock: set<Tx>, failed: set<Tx>)
    requires t in failed && t !in inBlock
    ensures Unready(p, o, Remaining(p, t, inBlock), failed)
  {
    assert t in Remaining(p, t, inBlock);
  }

  datatype Outcome = Skipped | LowFee | TooBig | NotReady | Selected | Broken

  // One round of addPackageTxs for the chosen transaction.
  method Consider(p: Pool, o: Options, b0: Block, mod0: Modified, failed0: set<Tx>, iter: Tx, tot: Totals, usingModified: bool)
    returns (b: Block, mod: Modified, failed: set<Tx>, outcome: Outcome)
    requires PoolOk(p) && BlockOk(p, b0) && WithinLimits(b0, o) && ModifiedOk(p, mod0, b0.inBlock)
    requires iter in p.order && iter !in b0.inBlock && Bounds(p, iter, tot, b0.inBlock) && (usingModified ==> iter in mod0)
    ensures BlockOk(p, b) && WithinLimits(b, o) && ModifiedOk(p, mod, b.inBlock) && b0.inBlock <= b.inBlock
    ensures b.inBlock == b0.inBlock ==> mod.Keys <= mod0.Keys && (usingModified ==> iter !in mod)
    ensures (outcome == TooBig <==> Oversized(o, b0, tot)) && outcome in {TooBig, NotReady, Selected, Broken}
    ensures Grew(p, o, b0, b)
    ensures Considered(p, o, b0, mod0, failed0, iter, tot, usingModified, outcome, b, mod, failed)
  {
    b, mod, failed := b0, mod0, failed0;
    var package := OnlyUnconfirmed(p.ancestors(iter), b0.inBlock) + {iter};
    outcome :=
      if !TestPackage(b, o, tot) then TooBig
      else if !TestPackageTransactions(p, o, package, failed) then NotReady
      else Selected;
    PackageIsRemaining(p, iter, b0.inBlock);
    if outcome != Selected {
      if usingModified {
        ErasedOk(p, mod, {iter}, b.inBlock, b.inBlock);
        mod := mod - {iter};
        failed := failed + {iter};
      }
      return;
    }
    b, mod, failed, outcome := Select(p, o, b0, mod0, failed0, iter, tot, package);
  }

  /** What becomes of the transaction considered: turned down for a reason, and marked as failed if
      it came from the side table, or taken up. */
  ghost predicate Considered(p: Pool, o: Options, b0: Block, mod0: Modified, failed0: set<Tx>, iter: Tx, tot: Totals, usingModified: bool,
                             outcome: Outcome, b: Block, mod: Modified, failed: set<Tx>)
  {
    if outcome == TooBig || outcome == NotReady then
      && (outcome == NotReady ==> Unready(p, o, Remaining(p, iter, b0.inBlock), failed0))
      && b == b0
      && if usingModified then mod == mod0 - {iter} && failed == failed0 + {iter} else mod == mod0 && failed == failed0
    else
      && !Unready(p, o, Remaining(p, iter, b0.inBlock), failed0)
      && (outcome == Selected || outcome == Broken) && Took(p, o, b0, mod0, failed0, iter, outcome, b, mod, failed)
  }

  /** What becomes of a package that passed the tests: all of it is in the block, or the MWEB miner
      refused one of the transactions that are not, and those have failed. */
  ghost predicate Took(p: Pool, o: Options, b0: Block, mod0: Modified, failed0: set<Tx>, iter: Tx, outcome: Outcome,
                       b: Block, mod: Modified, failed: set<Tx>)
  {
    var package := Remaining(p, iter, b0.inBlock);
    if outcome == Selected then
      b.inBlock == b0.inBlock + package && failed == failed0 && TakenOff(p, mod0 - package, mod, Ascending(package), package)
    else
      && mod == mod0 - package && failed == failed0 + (package - b.inBlock) && b.inBlock <= b0.inBlock + package
      && exists x :: x in package && x !in b.inBlock && !Wanted(p, o, |b.order|, x)
  }

  // Sorts a package that passed the tests, puts it into the block and updates the side table.
  method Select(p: Pool, o: Options, b0: Block, mod0: Modified, failed0: set<Tx>, iter: Tx, ghost tot: Totals, package: set<Tx>)
    returns (b: Block, mod: Modified, failed: set<Tx>, outcome: Outcome)
    requires PoolOk(p) && BlockOk(p, b0) && ModifiedOk(p, mod0, b0.inBlock) && TestPackage(b0, o, tot)
    requires iter in p.order && iter !in b0.inBlock && Bounds(p, iter, tot, b0.inBlock) && package == Remaining(p, iter, b0.inBlock)
    ensures BlockOk(p, b) && WithinLimits(b, o) && ModifiedOk(p, mod, b.inBlock)
    ensures outcome == Broken || outcome == Selected
    ensures Took(p, o, b0, mod0, failed0, iter, outcome, b, mod, failed) && b0.inBlock <= b.inBlock && Grew(p, o, b0, b)
  {
    var sorted := SortForBlock(p, package);
    var i;
    b, i := AddPackage(p, o, b0, sorted, iter);
    FitsLimits(p, o, b0, b, iter, tot);
    if i < |sorted| {
      mod, failed, outcome := mod0 - package, failed0 + (set x | x in sorted[i..]), Broken;
      PartOf(b0.inBlock, b.inBlock, sorted, i, package);
      assert ModifiedOk(p, mod, b.inBlock) by { ErasedOk(p, mod0, package, b0.inBlock, b.inBlock); }
      assert failed == failed0 + (package - b.inBlock) by { RestOf(b0.inBlock, b.inBlock, sorted, i, package); }
      assert sorted[i] in package && sorted[i] !in b.inBlock by { NextIsReady(p, b0, b, sorted, iter, i); }
    } else {
      SelectedAll(b0.inBlock, b.inBlock, sorted, package);
      mod := AfterAdding(p, b0, mod0, package);
      failed, outcome := failed0, Selected;
    }
  }

  lemma PartOf(before: set<Tx>, after: set<Tx>, sorted: seq<Tx>, i: nat, package: set<Tx>)
    requires i <= |sorted| && HasPrefix(before, after, sorted, i) && forall x :: x in sorted <==> x in package
    ensures before <= after <= before + package
  {
    forall x | x in sorted[..i] ensures x in package { assert x in sorted; }
  }

  lemma RestOf(before: set<Tx>, after: set<Tx>, sorted: seq<Tx>, i: nat, package: set<Tx>)
    requires i <= |sorted| && HasPrefix(before, after, sorted, i) && Distinct(sorted) && before !! package
    requires forall x :: x in sorted <==> x in package
    ensures (set x | x in sorted[i..]) == package - after
  {
    assert sorted == sorted[..i] + sorted[i..];
    forall x ensures x in sorted[i..] <==> x in package - after {
      if x in sorted[i..] { assert x in sorted; }
    }
  }

  lemma SelectedAll(before: set<Tx>, after: set<Tx>, sorted: seq<Tx>, package: set<Tx>)
    requires HasPrefix(before, after, sorted, |sorted|) && forall x :: x in sorted <==> x in package
    ensures after == before + package
  {
    assert sorted[..|sorted|] == sorted;
  }

  // UpdatePackagesForAdded for a package that is now in the block.
  method AfterAdding(p: Pool, b0: Block, mod0: Modified, package: set<Tx>) returns (mod: Modified)
    requires PoolOk(p) && BlockOk(p, b0) && ModifiedOk(p, mod0, b0.inBlock) && b0.inBlock !! package
    ensures ModifiedOk(p, mod, b0.inBlock + package) && TakenOff(p, mod0 - package, mod, Ascending(package), package)
  {
    forall t | t in p.order && t in b0.inBlock ensures p.ancestors(t) <= b0.inBlock {
      BlockIsClosed(p, b0.order, b0.inBlock, t);
    }
    ErasedOk(p, mod0, package, b0.inBlock, b0.inBlock);
    forall t | t in mod0 - package ensures t in p.order && t !in package {
      assert Listed(p, mod0 - package, b0.inBlock, t);
    }
    mod := UpdatePackagesForAdded(p, package, mod0 - package);
    TakenOffBounds(p, mod0 - package, mod, b0.inBlock, package);
  }

  ghost predicate AlwaysAccepts(o: Options) {
    forall n, t :: o.mweb(n, t) == Accepted
  }

  predicate SkipMapTxEntry(t: Tx, b: Block, mod: Modified, failed: set<Tx>) {
    t in mod || t in b.inBlock || t in failed
  }

  function AllTxs(p: Pool): set<Tx> {
    set t | t in p.order
  }

  ghost function Left(p: Pool, b: Block): nat {
    |AllTxs(p) - b.inBlock|
  }

  /** Why the selection ended: nothing left to look at, a package below the minimum fee rate, or
      too many failures in a row for an almost full block. */
  datatype Stop = Exhausted | FeeTooLow | NearlyFull

  /** Everything, counted twice, is within the limits. */
  ghost predicate MuchRoom(p: Pool, o: Options) {
    && 4000 + 2 * WITNESS_SCALE_FACTOR * Sum(AllTxs(p), p.size) < o.nBlockMaxWeight
    && 400 + 2 * Sum(AllTxs(p), p.sigOps) < MAX_BLOCK_SIGOPS_COST
    && 2 * Sum(AllTxs(p), p.mwebWeight) < MAX_MINE_WEIGHT
  }

  /** There is much room, and every transaction may be mined. */
  ghost predicate Roomy(p: Pool, o: Options) {
    && MuchRoom(p, o) && AlwaysAccepts(o) && forall t | t in p.order :: Mineable(p, o, t)
  }

  // ---------- the history of a selection ----------

  /** A transaction and the state in which it was turned down. */
  datatype Refusal = Refusal(tx: Tx, block: Block, tot: Totals)

  /** A transaction taken up, what it brought into the block, and whether that was its whole package. */
  datatype Pick = Pick(tx: Tx, added: set<Tx>, whole: bool)

  /** All refusals and picks so far; those refusals from `since` on came behind the last pick, and `row` of
      them are for size. */
  datatype History = History(log: seq<Refusal>, picked: seq<Pick>, since: nat, row: nat)

  ghost function Turned(log: seq<Refusal>): set<Tx> {
    if log == [] then {} else Turned(log[..|log| - 1]) + {log[|log| - 1].tx}
  }

  /** A refusal has a reason: the package is too big, or has a member that may not be mined or has
      been turned down before, or was taken up and then broken off by the MWEB miner. */
  ghost predicate Justified(p: Pool, o: Options, r: Refusal, before: set<Tx>) {
    && r.tx in p.order && r.tx !in r.block.inBlock && BlockOk(p, r.block)
    && (|| (AtMost(r.tot, p.cached(r.tx)) &&
            (Oversized(o, r.block, r.tot) || Unready(p, o, Remaining(p, r.tx, r.block.inBlock), before)))
        || BrokenOff(p, o, r.tx, r.block))
  }

  ghost predicate BrokenOff(p: Pool, o: Options, t: Tx, b: Block) {
    exists iter, x :: iter in p.order && t in Remaining(p, iter, b.inBlock) && x in Remaining(p, iter, b.inBlock) && !Wanted(p, o, |b.order|, x)
  }

  /** Every refusal was justified when it was made, while the block grew towards `inBlock`. */
  ghost predicate LogOk(p: Pool, o: Options, log: seq<Refusal>, inBlock: set<Tx>) {
    forall i | 0 <= i < |log| :: Justified(p, o, log[i], Turned(log[..i])) && log[i].block.inBlock <= inBlock
  }

  lemma LogNext(p: Pool, o: Options, log: seq<Refusal>, inBlock: set<Tx>, r: Refusal)
    requires LogOk(p, o, log, inBlock) && Justified(p, o, r, Turned(log)) && r.block.inBlock <= inBlock
    ensures LogOk(p, o, log + [r], inBlock) && Turned(log + [r]) == Turned(log) + {r.tx}
  {
    var log' := log + [r];
    assert log'[..|log|] == log;
    forall i | 0 <= i < |log'| ensures Justified(p, o, log'[i], Turned(log'[..i])) && log'[i].block.inBlock <= inBlock {
      assert log'[..i] == log[..i];
    }
  }

  /** The transactions of a package that was broken off are turned down together. */
  lemma {:induction false} LogBroken(p: Pool, o: Options, log: seq<Refusal>, b: Block, rest: set<Tx>) returns (log': seq<Refusal>)
    requires LogOk(p, o, log, b.inBlock) && BlockOk(p, b)
    requires forall t | t in rest :: t in p.order && t !in b.inBlock && BrokenOff(p, o, t, b)
    ensures LogOk(p, o, log', b.inBlock) && Turned(log') == Turned(log) + rest
    decreases rest
  {
    log' := log;
    if rest != {} {
      var t :| t in rest;
      LogNext(p, o, log, b.inBlock, Refusal(t, b, p.cached(t)));
      log' := LogBroken(p, o, log + [Refusal(t, b, p.cached(t))], b, rest - {t});
    }
  }

  // ---------- the packages taken up ----------

  /** What the block holds after the given picks. */
  ghost function Held(start: set<Tx>, picked: seq<Pick>): set<Tx> {
    if picked == [] then start else Held(start, picked[..|picked| - 1]) + picked[|picked| - 1].added
  }

  /** The transactions handed to UpdatePackagesForAdded, in order: those the block began with, and each
      package that was not broken off. */
  ghost function Handled(start: set<Tx>, picked: seq<Pick>): seq<Tx> {
    if picked == [] then Ascending(start) else
      Handled(start, picked[..|picked| - 1]) + if picked[|picked| - 1].whole then Ascending(picked[|picked| - 1].added) else []
  }

  /** A whole package entered the block that held `before`, or the part of it before one that the MWEB
      miner refused. */
  ghost predicate PickOk(p: Pool, o: Options, before: set<Tx>, k: Pick) {
    && k.tx in p.order && k.tx !in before && k.added <= Remaining(p, k.tx, before)
    && if k.whole then k.added == Remaining(p, k.tx, before)
       else exists x :: x in Remaining(p, k.tx, before + k.added) && !Wanted(p, o, |before + k.added|, x)
  }

  /** The block holds what was picked, and no transaction was picked twice. */
  ghost predicate PicksOk(p: Pool, o: Options, start: set<Tx>, picked: seq<Pick>, inBlock: set<Tx>, failed: set<Tx>) {
    && Held(start, picked) == inBlock
    && (forall i | 0 <= i < |picked| :: PickOk(p, o, Held(start, picked[..i]), picked[i]))
    && (forall i | 0 <= i < |picked| :: picked[i].tx in inBlock + failed)
    && (forall i, j | 0 <= i < j < |picked| :: picked[i].tx != picked[j].tx)
  }

  lemma PicksNext(p: Pool, o: Options, start: set<Tx>, picked: seq<Pick>, inBlock: set<Tx>, failed: set<Tx>, k: Pick, failed': set<Tx>)
    requires PicksOk(p, o, start, picked, inBlock, failed) && PickOk(p, o, inBlock, k) && k.tx !in failed
    requires failed <= failed' && k.tx in k.added + failed'
    ensures PicksOk(p, o, start, picked + [k], inBlock + k.added, failed')
  {
    var next := picked + [k];
    assert next[..|picked|] == picked;
    forall i | 0 <= i < |next| ensures PickOk(p, o, Held(start, next[..i]), next[i]) {
      assert next[..i] == picked[..i];
      if i == |picked| { assert picked[..i] == picked; }
    }
  }

  lemma PicksKeep(p: Pool, o: Options, start: set<Tx>, picked: seq<Pick>, inBlock: set<Tx>, failed: set<Tx>, failed': set<Tx>)
    requires PicksOk(p, o, start, picked, inBlock, failed) && failed <= failed'
    ensures PicksOk(p, o, start, picked, inBlock, failed')
  {
  }

  lemma HandledNext(start: set<Tx>, picked: seq<Pick>, k: Pick)
    ensures Handled(start, picked + [k]) == Handled(start, picked) + if k.whole then Ascending(k.added) else []
  {
    assert (picked + [k])[..|picked|] == picked;
  }

  /** Transactions are handled once, when they are in the block; without broken packages all are. */
  lemma {:induction false} HandledOnce(p: Pool, o: Options, start: set<Tx>, picked: seq<Pick>)
    requires forall i | 0 <= i < |picked| :: PickOk(p, o, Held(start, picked[..i]), picked[i])
    ensures Distinct(Handled(start, picked)) && Members(Handled(start, picked)) <= Held(start, picked)
    ensures (forall i | 0 <= i < |picked| :: picked[i].whole) ==> Members(Handled(start, picked)) == Held(start, picked)
    decreases |picked|
  {
    if picked != [] {
      var before, k := picked[..|picked| - 1], picked[|picked| - 1];
      forall i | 0 <= i < |before| ensures PickOk(p, o, Held(start, before[..i]), before[i]) {
        assert before[..i] == picked[..i];
      }
      HandledOnce(p, o, start, before);
      assert PickOk(p, o, Held(start, before), k);
      if k.whole { JoinOnce(Handled(start, before), Ascending(k.added)); }
      assert (forall i | 0 <= i < |picked| :: picked[i].whole) ==> forall i | 0 <= i < |before| :: before[i].whole;
    }
  }

  lemma JoinOnce(s: seq<Tx>, r: seq<Tx>)
    requires Distinct(s) && Distinct(r) && Members(s) !! Members(r)
    ensures Distinct(s + r) && Members(s + r) == Members(s) + Members(r)
  {
    forall i, j | 0 <= i < j < |s + r| ensures (s + r)[i] != (s + r)[j] {
      if i < |s| <= j {
        assert s[i] in Members(s) && r[j - |s|] in Members(r);
      }
    }
  }

  /** The MWEB miner takes every transaction of the pool that it is asked about. */
  ghost predicate Willing(p: Pool, o: Options) {
    forall n, t :: t in p.order && p.hasMweb(t) ==> o.mweb(n, t) == Accepted
  }

  lemma WillingPicksWhole(p: Pool, o: Options, before: set<Tx>, k: Pick)
    requires PoolOk(p) && Willing(p, o) && PickOk(p, o, before, k)
    ensures k.whole
  {
    if !k.whole {
      var x :| x in Remaining(p, k.tx, before + k.added) && !Wanted(p, o, |before + k.added|, x);
      FamilyInPool(p, k.tx);
      assert false;
    }
  }

  // ---------- the totals in the side table ----------

  /** The totals of t less the transactions handled. */
  ghost function Reduced(p: Pool, t: Tx, handled: seq<Tx>): Totals {
    Off(p, t, false, p.cached(t), handled)
  }

  /** An entry of the side table lacks all ancestors handled.  One that was erased before lacks only those
      handled after it came back. */
  ghost predicate Tallied(p: Pool, t: Tx, tot: Totals, failed: set<Tx>, handled: seq<Tx>) {
    exists k: nat | k <= |handled| ::
      && tot == Reduced(p, t, handled[k..]) && Hit(p, t, handled[k..]) != {} && (t !in failed ==> k == 0)
  }

  /** The side table says of every transaction left, unless it failed, what the transactions handled leave of
      its totals; a transaction is missing there only if nothing was taken off. */
  ghost predicate Ledger(p: Pool, inBlock: set<Tx>, mod: Modified, failed: set<Tx>, handled: seq<Tx>) {
    && (forall t | t in mod :: Tallied(p, t, mod[t], failed, handled))
    && (forall t | t in p.order && t !in inBlock && t !in failed && Hit(p, t, handled) != {} :: t in mod)
  }

  /** Whatever the code reads, the side table or the pool, it reads the reduced totals. */
  lemma LedgerReads(p: Pool, inBlock: set<Tx>, mod: Modified, failed: set<Tx>, handled: seq<Tx>, t: Tx)
    requires Ledger(p, inBlock, mod, failed, handled) && t in p.order && t !in inBlock && t !in failed
    ensures Base(p, mod, t) == Reduced(p, t, handled)
  {
    if t in mod {
      assert Tallied(p, t, mod[t], failed, handled);
      assert handled[0..] == handled;
    } else {
      OffUnmet(p, t, false, p.cached(t), handled);
    }
  }

  lemma TalliedKeeps(p: Pool, t: Tx, tot: Totals, failed: set<Tx>, failed': set<Tx>, handled: seq<Tx>)
    requires Tallied(p, t, tot, failed, handled) && failed <= failed'
    ensures Tallied(p, t, tot, failed', handled)
  {
  }

  /** Erasing entries that failed or entered the block. */
  lemma LedgerErases(p: Pool, inBlock: set<Tx>, mod: Modified, failed: set<Tx>, handled: seq<Tx>, gone: set<Tx>, inBlock': set<Tx>, failed': set<Tx>)
    requires Ledger(p, inBlock, mod, failed, handled)
    requires failed <= failed' && inBlock <= inBlock' && gone <= inBlock' + failed'
    ensures Ledger(p, inBlock', mod - gone, failed', handled)
  {
    forall t | t in mod - gone ensures Tallied(p, t, mod[t], failed', handled) {
      TalliedKeeps(p, t, mod[t], failed, failed', handled);
    }
  }

  lemma TalliedNext(p: Pool, t: Tx, tot: Totals, failed: set<Tx>, handled: seq<Tx>, s: seq<Tx>)
    requires Tallied(p, t, tot, failed, handled)
    ensures Tallied(p, t, Off(p, t, true, tot, s), failed, handled + s)
  {
    var k: nat :| k <= |handled| && tot == Reduced(p, t, handled[k..]) && Hit(p, t, handled[k..]) != {} && (t !in failed ==> k == 0);
    assert (handled + s)[k..] == handled[k..] + s;
    OffAgain(p, t, false, p.cached(t), handled[k..], s);
  }

  lemma TalliedNew(p: Pool, t: Tx, failed: set<Tx>, handled: seq<Tx>, s: seq<Tx>)
    requires Hit(p, t, s) != {} && (t !in failed ==> Hit(p, t, handled) == {})
    ensures Tallied(p, t, Off(p, t, false, p.cached(t), s), failed, handled + s)
  {
    if t in failed {
      assert (handled + s)[|handled|..] == s;
    } else {
      OffAgain(p, t, false, p.cached(t), handled, s);
      OffUnmet(p, t, false, p.cached(t), handled);
      assert (handled + s)[0..] == handled + s;
    }
  }

  /** Taking a package off. */
  lemma LedgerNext(p: Pool, inBlock: set<Tx>, mod: Modified, failed: set<Tx>, handled: seq<Tx>, package: set<Tx>, mod': Modified)
    requires Ledger(p, inBlock, mod, failed, handled) && (forall t | t in mod' :: t in p.order && t !in inBlock)
    requires TakenOff(p, mod - package, mod', Ascending(package), package)
    ensures Ledger(p, inBlock + package, mod', failed, handled + Ascending(package))
  {
    var s := Ascending(package);
    forall t | t in mod' ensures Tallied(p, t, mod'[t], failed, handled + s) {
      assert Updated(p, mod - package, mod', t, s, package);
      if t in mod - package {
        TalliedNext(p, t, mod[t], failed, handled, s);
      } else {
        TalliedNew(p, t, failed, handled, s);
      }
    }
    forall t | t in p.order && t !in inBlock + package && t !in failed && Hit(p, t, handled + s) != {} ensures t in mod' {
      assert Updated(p, mod - package, mod', t, s, package);
      OffAgain(p, t, false, p.cached(t), handled, s);
    }
  }

  lemma LedgerStarts(p: Pool, inBlock: set<Tx>, mod: Modified)
    requires TakenOff(p, map[], mod, Ascending(inBlock), inBlock)
    ensures Ledger(p, inBlock, mod, {}, Ascending(inBlock))
  {
    var s := Ascending(inBlock);
    forall t ensures t in mod ==> Tallied(p, t, mod[t], {}, s)
             ensures t in p.order && t !in inBlock && Hit(p, t, s) != {} ==> t in mod
    {
      assert Updated(p, map[], mod, t, s, inBlock) && s[0..] == s;
    }
  }

  /** With unchanged fees and no package broken off, the reduced totals are exactly what is still needed. */
  lemma ReducedIsNeeded(p: Pool, t: Tx, inBlock: set<Tx>, handled: seq<Tx>)
    requires PoolOk(p) && t in p.order && t !in inBlock && Distinct(handled) && Members(handled) == inBlock
    ensures var tot := Reduced(p, t, handled);
            && tot.size == Sum(Remaining(p, t, inBlock), p.size) && tot.sigOps == Sum(Remaining(p, t, inBlock), p.sigOps)
            && tot.mwebWeight == Sum(Remaining(p, t, inBlock), p.mwebWeight)
            && (tot.modFees == Sum(Remaining(p, t, inBlock), p.modFee) <==> Sum(Hit(p, t, handled), Delta(p)) == Counted(p, t, false, handled))
  {
    var off := p.ancestors(t) * inBlock;
    assert TxOk(p, t) && Family(p, t) - off == Remaining(p, t, inBlock) && off <= Family(p, t);
    OffWithout(p, t, false, p.cached(t), handled);
    FeesRight(p, t, false, p.cached(t), handled);
    SumParts(Family(p, t), off, p.size);
    SumParts(Family(p, t), off, p.sigOps);
    SumParts(Family(p, t), off, p.mwebWeight);
    SumParts(Family(p, t), off, p.modFee);
  }

  // ---------- choosing ----------

  /** The first mi transactions of the pool are in the block or in the side table, or were turned down. */
  ghost predicate Covered(p: Pool, b: Block, mod: Modified, log: seq<Refusal>, mi: nat)
    requires mi <= |p.order|
  {
    forall k | 0 <= k < mi :: p.order[k] in b.inBlock || p.order[k] in mod || p.order[k] in Turned(log)
  }

  function ScoreOf(p: Pool, t: Tx, tot: Totals): Entry {
    Entry(t, p.modFee(t), p.size(t), tot.modFees, tot.size)
  }

  /** Every transaction has a rate, and the pool is sorted by it. */
  ghost predicate Ranked(p: Pool) {
    && (forall t | t in p.order :: p.size(t) > 0 || p.modFee(t) > 0)
    && forall i, j | 0 <= i < j < |p.order| ::
         !Better(ScoreOf(p, p.order[j], p.cached(p.order[j])), ScoreOf(p, p.order[i], p.cached(p.order[i])))
  }

  /** What has been neither included nor turned down. */
  ghost predicate IsLeft(p: Pool, b: Block, log: seq<Refusal>, u: Tx) {
    u in p.order && u !in b.inBlock && u !in Turned(log)
  }

  /** t pays too little for what is left of its totals, and of all transactions left none is better with what
      is left of its own.  Of a t that was turned down before, more may be left than should be. */
  ghost predicate PaysTooLittle(p: Pool, o: Options, b: Block, log: seq<Refusal>, handled: seq<Tx>, t: Tx, k: nat)
    requires k <= |handled|
  {
    var tot := Reduced(p, t, handled[k..]);
    && t in p.order && t !in b.inBlock && (k > 0 ==> t in Turned(log)) && Bounds(p, t, tot, b.inBlock)
    && tot.modFees < o.minFee(tot.size, tot.mwebWeight)
    && (Ranked(p) ==> forall u | IsLeft(p, b, log, u) :: !Better(ScoreOf(p, u, Reduced(p, u, handled)), ScoreOf(p, t, tot)))
  }

  /** The best of what is left pays too little. */
  ghost predicate OffersTooLittle(p: Pool, o: Options, b: Block, log: seq<Refusal>, handled: seq<Tx>) {
    exists t, k: nat | k <= |handled| :: PaysTooLittle(p, o, b, log, handled, t, k)
  }

  // ---------- refusals in a row ----------

  /** The refusals behind the last pick were made with the block as it is, each of another transaction, and
      none of these is looked at again. */
  ghost predicate Recent(p: Pool, o: Options, b: Block, mod: Modified, failed: set<Tx>, mi: nat, h: History)
    requires mi <= |p.order|
  {
    && h.since <= |h.log| && h.row == TooBigs(o, h.log, h.since)
    && (forall i | h.since <= i < |h.log| :: h.log[i].block == b && Passed(p, mod, failed, mi, h.log[i].tx))
    && (forall i, j | h.since <= i < j < |h.log| :: h.log[i].tx != h.log[j].tx)
  }

  /** t will not be chosen again. */
  ghost predicate Passed(p: Pool, mod: Modified, failed: set<Tx>, mi: nat, t: Tx)
    requires mi <= |p.order|
  {
    t !in mod && (t in failed || t !in p.order[mi..])
  }

  /** How many of the refusals from `since` on are for size. */
  ghost function TooBigs(o: Options, log: seq<Refusal>, since: nat): nat
    decreases |log|
  {
    if |log| <= since then 0 else
      var r := log[|log| - 1];
      TooBigs(o, log[..|log| - 1], since) + if Oversized(o, r.block, r.tot) then 1 else 0
  }

  lemma TooBigsNext(o: Options, log: seq<Refusal>, since: nat, r: Refusal)
    requires since <= |log|
    ensures TooBigs(o, log + [r], since) == TooBigs(o, log, since) + if Oversized(o, r.block, r.tot) then 1 else 0
  {
    assert (log + [r])[..|log|] == log;
  }

  lemma NoneSince(o: Options, log: seq<Refusal>)
    ensures TooBigs(o, log, |log|) == 0
  {
  }

  ghost function RefusedToo(o: Options, h: History, r: Refusal): History {
    h.(log := h.log + [r], row := h.row + if Oversized(o, r.block, r.tot) then 1 else 0)
  }

  lemma RecentSkips(p: Pool, o: Options, b: Block, mod: Modified, failed: set<Tx>, mi: nat, h: History)
    requires mi < |p.order| && Recent(p, o, b, mod, failed, mi, h)
    ensures Recent(p, o, b, mod, failed, mi + 1, h)
  {
    forall t | Passed(p, mod, failed, mi, t) ensures Passed(p, mod, failed, mi + 1, t) {
      LaterIn(p.order, mi, t);
    }
  }

  lemma LaterIn(s: seq<Tx>, i: nat, t: Tx)
    requires i < |s|
    ensures t in s[i + 1..] ==> t in s[i..]
    ensures s[i] in s[i..] && (Distinct(s) ==> s[i] !in s[i + 1..])
  {
    assert s[i..] == [s[i]] + s[i + 1..];
  }

  /** A refused transaction joins them. */
  lemma RecentNext(p: Pool, o: Options, b: Block, mod: Modified, failed: set<Tx>, mi: nat, h: History, iter: Tx, tot: Totals,
                   usingModified: bool, mod': Modified, failed': set<Tx>, mi': nat)
    requires PoolOk(p) && mi <= |p.order| && Recent(p, o, b, mod, failed, mi, h)
    requires if usingModified then mi' == mi && iter in mod && mod' == mod - {iter} && failed' == failed + {iter}
             else mi < |p.order| && mi' == mi + 1 && iter == p.order[mi] && iter !in mod && iter !in failed && mod' == mod && failed' == failed
    ensures Recent(p, o, b, mod', failed', mi', RefusedToo(o, h, Refusal(iter, b, tot)))
  {
    TooBigsNext(o, h.log, h.since, Refusal(iter, b, tot));
    if mi < |p.order| { LaterIn(p.order, mi, iter); }
    forall t | Passed(p, mod, failed, mi, t) ensures t != iter && Passed(p, mod', failed', mi', t) {
      if !usingModified { LaterIn(p.order, mi, t); }
    }
    assert Passed(p, mod', failed', mi', iter);
  }

  // ---------- the selection ----------

  /** What holds between the rounds of the selection that began with the transactions `start`. */
  ghost predicate Ongoing(p: Pool, o: Options, start: set<Tx>, h: History, b: Block, mod: Modified, failed: set<Tx>, mi: nat) {
    && mi <= |p.order| && start <= b.inBlock
    && BlockOk(p, b) && WithinLimits(b, o) && ModifiedOk(p, mod, b.inBlock)
    && LogOk(p, o, h.log, b.inBlock) && failed <= Turned(h.log) && Covered(p, b, mod, h.log, mi)
    && PicksOk(p, o, start, h.picked, b.inBlock, failed)
    && Ledger(p, b.inBlock, mod, failed, Handled(start, h.picked))
    && Recent(p, o, b, mod, failed, mi, h)
    && Admitted(p, o, start, b) && AllPaid(p, o, start, h.picked)
  }

  /** What is left of the totals of t pays the minimum rate. */
  ghost predicate PaysEnough(p: Pool, o: Options, t: Tx, handled: seq<Tx>) {
    var tot := Reduced(p, t, handled);
    tot.modFees >= o.minFee(tot.size, tot.mwebWeight)
  }

  /** Every package taken up paid the minimum rate when it was. */
  ghost predicate AllPaid(p: Pool, o: Options, start: set<Tx>, picked: seq<Pick>) {
    forall i | 0 <= i < |picked| :: PaysEnough(p, o, picked[i].tx, Handled(start, picked[..i]))
  }

  lemma PaidNext(p: Pool, o: Options, start: set<Tx>, picked: seq<Pick>, k: Pick)
    requires AllPaid(p, o, start, picked) && PaysEnough(p, o, k.tx, Handled(start, picked))
    ensures AllPaid(p, o, start, picked + [k])
  {
    var next := picked + [k];
    forall i | 0 <= i < |next| ensures PaysEnough(p, o, next[i].tx, Handled(start, next[..i])) {
      assert next[..i] == picked[..i];
      if i == |picked| { assert picked[..i] == picked; }
    }
  }

  lemma AllCovered(p: Pool, b: Block, log: seq<Refusal>)
    requires Covered(p, b, map[], log, |p.order|)
    ensures AllTxs(p) <= b.inBlock + Turned(log)
  {
    forall t | t in p.order ensures t in b.inBlock + Turned(log) {
      var k :| 0 <= k < |p.order| && p.order[k] == t;
      assert p.order[k] in b.inBlock || p.order[k] in Turned(log);
    }
  }

  /** Behind the last pick more than a thousand different transactions were found too big for the block,
      which is almost full. */
  ghost predicate GaveUp(p: Pool, o: Options, b: Block, h: History) {
    && b.nBlockWeight > o.nBlockMaxWeight - 4000
    && h.since <= |h.log| && TooBigs(o, h.log, h.since) > MAX_CONSECUTIVE_FAILURES
    && (forall i | h.since <= i < |h.log| :: h.log[i].block == b)
    && (forall i, j | h.since <= i < j < |h.log| :: h.log[i].tx != h.log[j].tx)
  }

  /** What holds when the selection ends. */
  ghost predicate Finished(p: Pool, o: Options, start: set<Tx>, b: Block, stop: Stop, h: History) {
    && BlockOk(p, b) && WithinLimits(b, o) && start <= b.inBlock && LogOk(p, o, h.log, b.inBlock)
    && (stop == FeeTooLow ==> OffersTooLittle(p, o, b, h.log, Handled(start, h.picked)))
    && (stop == NearlyFull ==> GaveUp(p, o, b, h))
    && (stop == Exhausted ==> AllTxs(p) <= b.inBlock + Turned(h.log))
    && PicksOk(p, o, start, h.picked, b.inBlock, Turned(h.log))
    && Admitted(p, o, start, b) && AllPaid(p, o, start, h.picked)
  }

  lemma EndsFinished(p: Pool, o: Options, start: set<Tx>, b: Block, mod: Modified, failed: set<Tx>, mi: nat, stop: Stop, h: History)
    requires Ongoing(p, o, start, h, b, mod, failed, mi)
    requires stop == FeeTooLow ==> OffersTooLittle(p, o, b, h.log, Handled(start, h.picked))
    requires stop == NearlyFull ==> b.nBlockWeight > o.nBlockMaxWeight - 4000 && h.row > MAX_CONSECUTIVE_FAILURES
    requires stop == Exhausted ==> mi == |p.order| && mod == map[]
    ensures Finished(p, o, start, b, stop, h)
  {
    if stop == Exhausted { AllCovered(p, b, h.log); }
    PicksKeep(p, o, start, h.picked, b.inBlock, failed, Turned(h.log));
  }

  // addPackageTxs.  The history tells for every transaction left out why it was.
  method SelectPackages(p: Pool, o: Options, b0: Block) returns (b: Block, nPackagesSelected: nat, stop: Stop, ghost h: History)
    requires PoolOk(p) && BlockOk(p, b0) && WithinLimits(b0, o)
    ensures Finished(p, o, b0.inBlock, b, stop, h) && |h.picked| == nPackagesSelected
  {
    b, nPackagesSelected, h := b0, 0, History([], [], 0, 0);
    var failed: set<Tx> := {};
    var mod := InitialModified(p, b0);
    Starts(p, o, b0, mod);
    var mi: nat := 0;
    var nConsecutiveFailed := 0;
    while mi < |p.order| || mod != map[]
      invariant Ongoing(p, o, b0.inBlock, h, b, mod, failed, mi)
      invariant |h.picked| == nPackagesSelected && nConsecutiveFailed == h.row
      decreases Left(p, b), |p.order| - mi, |mod.Keys|
    {
      var outcome;
      b, mod, failed, mi, outcome, nPackagesSelected, nConsecutiveFailed, h :=
        CountTurn(p, o, b0.inBlock, h, b, mod, failed, mi, nPackagesSelected, nConsecutiveFailed);
      if outcome == LowFee {
        EndsFinished(p, o, b0.inBlock, b, mod, failed, mi, FeeTooLow, h);
        return b, nPackagesSelected, FeeTooLow, h;
      }
      if outcome == TooBig && nConsecutiveFailed > MAX_CONSECUTIVE_FAILURES && b.nBlockWeight > o.nBlockMaxWeight - 4000 {
        EndsFinished(p, o, b0.inBlock, b, mod, failed, mi, NearlyFull, h);
        return b, nPackagesSelected, NearlyFull, h;
      }
    }
    EndsFinished(p, o, b0.inBlock, b, mod, failed, mi, Exhausted, h);
    return b, nPackagesSelected, Exhausted, h;
  }

  // One turn of the loop with its counters.
  method CountTurn(p: Pool, o: Options, ghost start: set<Tx>, ghost h0: History, b0: Block, mod0: Modified, failed0: set<Tx>, mi0: nat,
                   nPackages0: nat, nFailed0: nat)
    returns (b: Block, mod: Modified, failed: set<Tx>, mi: nat, outcome: Outcome, nPackages: nat, nFailed: nat, ghost h: History)
    requires PoolOk(p) && Ongoing(p, o, start, h0, b0, mod0, failed0, mi0)
    requires (mi0 < |p.order| || mod0 != map[]) && |h0.picked| == nPackages0 && nFailed0 == h0.row
    ensures Ongoing(p, o, start, h, b, mod, failed, mi) && |h.picked| == nPackages && nFailed == h.row
    ensures if outcome == LowFee then OffersTooLittle(p, o, b, h.log, Handled(start, h.picked)) else Closer(p, b0, mod0, mi0, b, mod, mi)
  {
    b, mod, failed, mi, outcome, h := TakeTurn(p, o, start, h0, b0, mod0, failed0, mi0);
    nPackages, nFailed := NextPackages(outcome, nPackages0), NextFailed(outcome, nFailed0);
  }

  // nPackagesSelected after a turn
  function NextPackages(outcome: Outcome, n: nat): nat {
    if outcome == Selected || outcome == Broken then n + 1 else n
  }

  // nConsecutiveFailed after a turn
  function NextFailed(outcome: Outcome, n: nat): nat {
    if outcome == Selected || outcome == Broken then 0 else if outcome == TooBig then n + 1 else n
  }

  // The side table for a block that may already hold transactions.
  method InitialModified(p: Pool, b: Block) returns (mod: Modified)
    requires PoolOk(p) && BlockOk(p, b)
    ensures ModifiedOk(p, mod, b.inBlock) && Ledger(p, b.inBlock, mod, {}, Ascending(b.inBlock))
  {
    mod := UpdatePackagesForAdded(p, b.inBlock, map[]);
    TakenOffBounds(p, map[], mod, {}, b.inBlock);
    assert {} + b.inBlock == b.inBlock;
    LedgerStarts(p, b.inBlock, mod);
  }

  lemma Starts(p: Pool, o: Options, b: Block, mod: Modified)
    requires BlockOk(p, b) && WithinLimits(b, o) && ModifiedOk(p, mod, b.inBlock) && Ledger(p, b.inBlock, mod, {}, Ascending(b.inBlock))
    ensures Ongoing(p, o, b.inBlock, History([], [], 0, 0), b, mod, {}, 0)
  {
  }

  /** How a turn changes the counts. */
  ghost predicate Counts(outcome: Outcome, h0: History, h: History) {
    |h.picked| == NextPackages(outcome, |h0.picked|) && h.row == NextFailed(outcome, h0.row)
  }

  lemma CountsSame(outcome: Outcome, h: History)
    requires outcome == Skipped || outcome == LowFee
    ensures Counts(outcome, h, h)
  {
  }

  lemma CountsRefused(o: Options, outcome: Outcome, h: History, r: Refusal)
    requires outcome == (if Oversized(o, r.block, r.tot) then TooBig else NotReady)
    ensures Counts(outcome, h, RefusedToo(o, h, r))
  {
  }

  lemma StaleIsCovered(p: Pool, o: Options, start: set<Tx>, h: History, b: Block, mod: Modified, failed: set<Tx>, mi: nat)
    requires Ongoing(p, o, start, h, b, mod, failed, mi) && mi < |p.order| && SkipMapTxEntry(p.order[mi], b, mod, failed)
    ensures Ongoing(p, o, start, h, b, mod, failed, mi + 1) && Closer(p, b, mod, mi, b, mod, mi + 1)
  {
    RecentSkips(p, o, b, mod, failed, mi, h);
  }

  // One turn of the loop: a stale entry of mapTx is passed over.
  method TakeTurn(p: Pool, o: Options, ghost start: set<Tx>, ghost h0: History, b0: Block, mod0: Modified, failed0: set<Tx>, mi0: nat)
    returns (b: Block, mod: Modified, failed: set<Tx>, mi: nat, outcome: Outcome, ghost h: History)
    requires PoolOk(p) && Ongoing(p, o, start, h0, b0, mod0, failed0, mi0)
    requires mi0 < |p.order| || mod0 != map[]
    ensures Ongoing(p, o, start, h, b, mod, failed, mi) && Counts(outcome, h0, h)
    ensures if outcome == LowFee then OffersTooLittle(p, o, b, h.log, Handled(start, h.picked)) else Closer(p, b0, mod0, mi0, b, mod, mi)
  {
    if mi0 < |p.order| && SkipMapTxEntry(p.order[mi0], b0, mod0, failed0) {
      StaleIsCovered(p, o, start, h0, b0, mod0, failed0, mi0);
      CountsSame(Skipped, h0);
      return b0, mod0, failed0, mi0 + 1, Skipped, h0;
    }
    b, mod, failed, mi, outcome, h := Round(p, o, start, h0, b0, mod0, failed0, mi0);
  }

  // One round for an entry of mapTx that is not stale, or for the side table.
  method Round(p: Pool, o: Options, ghost start: set<Tx>, ghost h0: History, b0: Block, mod0: Modified, failed0: set<Tx>, mi0: nat)
    returns (b: Block, mod: Modified, failed: set<Tx>, mi: nat, outcome: Outcome, ghost h: History)
    requires PoolOk(p) && Ongoing(p, o, start, h0, b0, mod0, failed0, mi0)
    requires (mi0 == |p.order| ==> mod0 != map[]) && (mi0 < |p.order| ==> !SkipMapTxEntry(p.order[mi0], b0, mod0, failed0))
    ensures Ongoing(p, o, start, h, b, mod, failed, mi) && Counts(outcome, h0, h)
    ensures if outcome == LowFee then OffersTooLittle(p, o, b, h.log, Handled(start, h.picked)) else Closer(p, b0, mod0, mi0, b, mod, mi)
  {
    var iter, tot, usingModified := Choose(p, b0, mod0, mi0);
    if tot.modFees < o.minFee(tot.size, tot.mwebWeight) {
      BestOnOffer(p, o, start, h0, b0, mod0, failed0, mi0, iter, tot, usingModified);
      CountsSame(LowFee, h0);
      return b0, mod0, failed0, mi0, LowFee, h0;
    }
    mi := if usingModified then mi0 else mi0 + 1;
    b, mod, failed, outcome, h := Attempt(p, o, start, h0, b0, mod0, failed0, mi0, mi, iter, tot, usingModified);
  }

  /** The totals of the transaction chosen. */
  lemma ChosenTotals(p: Pool, inBlock: set<Tx>, mod: Modified, failed: set<Tx>, handled: seq<Tx>, iter: Tx, tot: Totals, usingModified: bool)
    returns (k: nat)
    requires Ledger(p, inBlock, mod, failed, handled) && iter in p.order && iter !in inBlock
    requires if usingModified then iter in mod && tot == mod[iter] else iter !in mod && iter !in failed && tot == p.cached(iter)
    ensures k <= |handled| && tot == Reduced(p, iter, handled[k..]) && (k > 0 ==> iter in failed)
  {
    if usingModified {
      assert Tallied(p, iter, mod[iter], failed, handled);
      k :| k <= |handled| && tot == Reduced(p, iter, handled[k..]) && (iter !in failed ==> k == 0);
    } else {
      k := 0;
      LedgerReads(p, inBlock, mod, failed, handled, iter);
      assert handled[0..] == handled;
    }
  }

  /** The transaction chosen is as good as any that is left. */
  lemma BestOnOffer(p: Pool, o: Options, start: set<Tx>, h: History, b: Block, mod: Modified, failed: set<Tx>, mi: nat, iter: Tx, tot: Totals,
                    usingModified: bool)
    requires Ongoing(p, o, start, h, b, mod, failed, mi) && iter in p.order && iter !in b.inBlock && Bounds(p, iter, tot, b.inBlock)
    requires if usingModified then iter in mod && tot == mod[iter] else iter !in mod && iter !in failed && tot == p.cached(iter)
    requires tot.modFees < o.minFee(tot.size, tot.mwebWeight)
    requires Ranked(p) ==> IsBest(p, mod, mi, ScoreOf(p, iter, tot))
    ensures OffersTooLittle(p, o, b, h.log, Handled(start, h.picked))
  {
    var handled := Handled(start, h.picked);
    var k := ChosenTotals(p, b.inBlock, mod, failed, handled, iter, tot, usingModified);
    if Ranked(p) {
      forall u | IsLeft(p, b, h.log, u) ensures !Better(ScoreOf(p, u, Reduced(p, u, handled)), ScoreOf(p, iter, tot)) {
        NoneBetter(p, b, mod, failed, h.log, handled, mi, ScoreOf(p, iter, tot), u);
      }
    }
    assert PaysTooLittle(p, o, b, h.log, handled, iter, k);
  }

  lemma NoneBetter(p: Pool, b: Block, mod: Modified, failed: set<Tx>, log: seq<Refusal>, handled: seq<Tx>, mi: nat, e: Entry, u: Tx)
    requires Ledger(p, b.inBlock, mod, failed, handled) && failed <= Turned(log) && mi <= |p.order| && Covered(p, b, mod, log, mi)
    requires IsBest(p, mod, mi, e) && IsLeft(p, b, log, u)
    ensures !Better(ScoreOf(p, u, Reduced(p, u, handled)), e)
  {
    LedgerReads(p, b.inBlock, mod, failed, handled, u);
    var k :| 0 <= k < |p.order| && p.order[k] == u;
    if u !in mod {
      assert k >= mi;
      assert !Better(ScoreOf(p, p.order[k], p.cached(p.order[k])), e);
    }
  }

  /** No entry of the side table and no transaction of the pool from mi on is better. */
  ghost predicate IsBest(p: Pool, mod: Modified, mi: nat, e: Entry) {
    && (forall t | t in mod :: !Better(ScoreOf(p, t, mod[t]), e))
    && (forall k | mi <= k < |p.order| :: !Better(ScoreOf(p, p.order[k], p.cached(p.order[k])), e))
  }

  // The part of a round that follows the fee test.
  method Attempt(p: Pool, o: Options, ghost start: set<Tx>, ghost h0: History, b0: Block, mod0: Modified, failed0: set<Tx>,
                 ghost mi0: nat, ghost mi: nat, iter: Tx, tot: Totals, usingModified: bool)
    returns (b: Block, mod: Modified, failed: set<Tx>, outcome: Outcome, ghost h: History)
    requires PoolOk(p) && Ongoing(p, o, start, h0, b0, mod0, failed0, mi0)
    requires iter in p.order && iter !in b0.inBlock && Bounds(p, iter, tot, b0.inBlock) && AtMost(tot, p.cached(iter))
    requires FromTable(p, mod0, failed0, mi0, mi, iter, usingModified)
    requires tot == Base(p, mod0, iter) && tot.modFees >= o.minFee(tot.size, tot.mwebWeight)
    ensures outcome != LowFee && Ongoing(p, o, start, h, b, mod, failed, mi) && Counts(outcome, h0, h)
    ensures Closer(p, b0, mod0, mi0, b, mod, mi)
  {
    b, mod, failed, outcome := Consider(p, o, b0, mod0, failed0, iter, tot, usingModified);
    GetsCloser(p, b0, mod0, mi0, b, mod, mi, iter);
    if outcome == Selected || outcome == Broken {
      ChosenIsPaid(p, o, start, h0, b0, mod0, failed0, mi0, iter, tot);
      h := AfterTaking(p, o, start, h0, b0, mod0, failed0, mi0, mi, iter, outcome, b, mod, failed);
    } else {
      h := AfterRefusing(p, o, start, h0, b0, mod0, failed0, mi0, mi, iter, tot, usingModified, outcome, mod, failed);
    }
  }

  lemma ChosenIsPaid(p: Pool, o: Options, start: set<Tx>, h: History, b: Block, mod: Modified, failed: set<Tx>, mi: nat, iter: Tx, tot: Totals)
    requires Ongoing(p, o, start, h, b, mod, failed, mi) && iter in p.order && iter !in b.inBlock && tot == Base(p, mod, iter)
    requires !Unready(p, o, Remaining(p, iter, b.inBlock), failed) && tot.modFees >= o.minFee(tot.size, tot.mwebWeight)
    ensures iter !in failed && PaysEnough(p, o, iter, Handled(start, h.picked))
  {
    assert iter in Remaining(p, iter, b.inBlock);
    LedgerReads(p, b.inBlock, mod, failed, Handled(start, h.picked), iter);
  }

  /** Where the transaction chosen comes from. */
  ghost predicate FromTable(p: Pool, mod: Modified, failed: set<Tx>, mi: nat, mi': nat, iter: Tx, usingModified: bool) {
    if usingModified then mi' == mi && iter in mod
    else mi < |p.order| && mi' == mi + 1 && iter == p.order[mi] && iter !in mod && iter !in failed
  }

  /** The history behind a refusal. */
  lemma AfterRefusing(p: Pool, o: Options, start: set<Tx>, h0: History, b: Block, mod0: Modified, failed0: set<Tx>, mi0: nat, mi: nat,
                      iter: Tx, tot: Totals, usingModified: bool, outcome: Outcome, mod: Modified, failed: set<Tx>) returns (h: History)
    requires PoolOk(p) && Ongoing(p, o, start, h0, b, mod0, failed0, mi0) && FromTable(p, mod0, failed0, mi0, mi, iter, usingModified)
    requires iter in p.order && iter !in b.inBlock && AtMost(tot, p.cached(iter)) && (outcome == TooBig || outcome == NotReady)
    requires outcome == TooBig <==> Oversized(o, b, tot)
    requires Considered(p, o, b, mod0, failed0, iter, tot, usingModified, outcome, b, mod, failed) && ModifiedOk(p, mod, b.inBlock)
    ensures Ongoing(p, o, start, h, b, mod, failed, mi) && Counts(outcome, h0, h)
  {
    var r := Refusal(iter, b, tot);
    RefusedIsJustified(p, o, h0.log, b, iter, tot, failed0);
    h := RefusedToo(o, h0, r);
    CountsRefused(o, outcome, h0, r);
    RefusedKeeps(p, o, start, h0.picked, b, mod0, failed0, iter, usingModified, mod, failed);
    RecentNext(p, o, b, mod0, failed0, mi0, h0, iter, tot, usingModified, mod, failed, mi);
    StaysCovered(p, b, b, mod0, mod, h0.log, h.log, mi0, mi, iter);
  }

  lemma RefusedKeeps(p: Pool, o: Options, start: set<Tx>, picked: seq<Pick>, b: Block, mod0: Modified, failed0: set<Tx>, iter: Tx,
                     usingModified: bool, mod: Modified, failed: set<Tx>)
    requires PicksOk(p, o, start, picked, b.inBlock, failed0) && Ledger(p, b.inBlock, mod0, failed0, Handled(start, picked))
    requires if usingModified then mod == mod0 - {iter} && failed == failed0 + {iter} else mod == mod0 && failed == failed0
    ensures PicksOk(p, o, start, picked, b.inBlock, failed) && Ledger(p, b.inBlock, mod, failed, Handled(start, picked))
  {
    PicksKeep(p, o, start, picked, b.inBlock, failed0, failed);
    LedgerErases(p, b.inBlock, mod0, failed0, Handled(start, picked), if usingModified then {iter} else {}, b.inBlock, failed);
    assert mod0 - {} == mod0;
  }

  lemma RefusedIsJustified(p: Pool, o: Options, log: seq<Refusal>, b: Block, iter: Tx, tot: Totals, failed: set<Tx>)
    requires LogOk(p, o, log, b.inBlock) && BlockOk(p, b) && failed <= Turned(log)
    requires iter in p.order && iter !in b.inBlock && AtMost(tot, p.cached(iter))
    requires Oversized(o, b, tot) || Unready(p, o, Remaining(p, iter, b.inBlock), failed)
    ensures LogOk(p, o, log + [Refusal(iter, b, tot)], b.inBlock) && Turned(log + [Refusal(iter, b, tot)]) == Turned(log) + {iter}
  {
    LogNext(p, o, log, b.inBlock, Refusal(iter, b, tot));
  }

  /** The history behind a package taken up. */
  lemma AfterTaking(p: Pool, o: Options, start: set<Tx>, h0: History, b0: Block, mod0: Modified, failed0: set<Tx>, mi0: nat, mi: nat,
                    iter: Tx, outcome: Outcome, b: Block, mod: Modified, failed: set<Tx>) returns (h: History)
    requires PoolOk(p) && Ongoing(p, o, start, h0, b0, mod0, failed0, mi0)
    requires mi0 <= mi <= mi0 + 1 && mi <= |p.order| && (mi0 < mi ==> p.order[mi0] == iter)
    requires iter in p.order && iter !in b0.inBlock && iter !in failed0 && b0.inBlock <= b.inBlock
    requires BlockOk(p, b) && WithinLimits(b, o) && ModifiedOk(p, mod, b.inBlock)
    requires (outcome == Selected || outcome == Broken) && Took(p, o, b0, mod0, failed0, iter, outcome, b, mod, failed)
    requires Grew(p, o, b0, b) && !Unready(p, o, Remaining(p, iter, b0.inBlock), failed0) && PaysEnough(p, o, iter, Handled(start, h0.picked))
    ensures Ongoing(p, o, start, h, b, mod, failed, mi) && Counts(outcome, h0, h)
  {
    AdmittedGrows(p, o, start, b0, b, Remaining(p, iter, b0.inBlock));
    var log := TookCovers(p, o, h0.log, b0, mod0, failed0, iter, outcome, b, mod, failed);
    var k := Pick(iter, b.inBlock - b0.inBlock, outcome == Selected);
    h := History(log, h0.picked + [k], |log|, 0);
    NoneSince(o, log);
    PaidNext(p, o, start, h0.picked, k);
    OrderSize(b.order, b.inBlock);
    TookBoth(p, o, start, h0.picked, b0, mod0, failed0, iter, outcome, b, mod, failed, k);
    StaysCovered(p, b0, b, mod0, mod, h0.log, log, mi0, mi, iter);
  }

  lemma TookBoth(p: Pool, o: Options, start: set<Tx>, picked: seq<Pick>, b0: Block, mod0: Modified, failed0: set<Tx>, iter: Tx, outcome: Outcome,
                 b: Block, mod: Modified, failed: set<Tx>, k: Pick)
    requires PicksOk(p, o, start, picked, b0.inBlock, failed0) && Ledger(p, b0.inBlock, mod0, failed0, Handled(start, picked))
    requires iter in p.order && iter !in b0.inBlock && iter !in failed0 && b0.inBlock <= b.inBlock && ModifiedOk(p, mod, b.inBlock)
    requires k == Pick(iter, b.inBlock - b0.inBlock, outcome == Selected) && |b.order| == |b.inBlock|
    requires (outcome == Selected || outcome == Broken) && Took(p, o, b0, mod0, failed0, iter, outcome, b, mod, failed)
    ensures PicksOk(p, o, start, picked + [k], b.inBlock, failed) && Ledger(p, b.inBlock, mod, failed, Handled(start, picked + [k]))
  {
    TookPicks(p, o, start, picked, b0, mod0, failed0, iter, outcome, b, mod, failed, k);
    TookLedger(p, o, start, picked, b0, mod0, failed0, iter, outcome, b, mod, failed, k);
  }

  lemma TookPicks(p: Pool, o: Options, start: set<Tx>, picked: seq<Pick>, b0: Block, mod0: Modified, failed0: set<Tx>, iter: Tx, outcome: Outcome,
                  b: Block, mod: Modified, failed: set<Tx>, k: Pick)
    requires PicksOk(p, o, start, picked, b0.inBlock, failed0)
    requires iter in p.order && iter !in b0.inBlock && iter !in failed0 && b0.inBlock <= b.inBlock
    requires k == Pick(iter, b.inBlock - b0.inBlock, outcome == Selected) && |b.order| == |b.inBlock|
    requires (outcome == Selected || outcome == Broken) && Took(p, o, b0, mod0, failed0, iter, outcome, b, mod, failed)
    ensures PicksOk(p, o, start, picked + [k], b.inBlock, failed)
  {
    TookPick(p, o, b0, mod0, failed0, iter, outcome, b, mod, failed, k);
    PicksGrow(p, o, start, picked, b0.inBlock, b.inBlock, failed0, k, failed);
  }

  lemma PicksGrow(p: Pool, o: Options, start: set<Tx>, picked: seq<Pick>, before: set<Tx>, after: set<Tx>, failed0: set<Tx>, k: Pick, failed: set<Tx>)
    requires PicksOk(p, o, start, picked, before, failed0) && PickOk(p, o, before, k) && k.tx !in failed0 && before <= after
    requires k.added == after - before && failed0 <= failed && k.tx in k.added + failed
    ensures PicksOk(p, o, start, picked + [k], after, failed)
  {
    PicksNext(p, o, start, picked, before, failed0, k, failed);
    assert before + k.added == after;
  }

  lemma TookPick(p: Pool, o: Options, b0: Block, mod0: Modified, failed0: set<Tx>, iter: Tx, outcome: Outcome, b: Block, mod: Modified,
                 failed: set<Tx>, k: Pick)
    requires iter in p.order && iter !in b0.inBlock && b0.inBlock <= b.inBlock && k == Pick(iter, b.inBlock - b0.inBlock, outcome == Selected)
    requires |b.order| == |b.inBlock|
    requires (outcome == Selected || outcome == Broken) && Took(p, o, b0, mod0, failed0, iter, outcome, b, mod, failed)
    ensures PickOk(p, o, b0.inBlock, k) && failed0 <= failed && iter in k.added + failed
  {
    assert iter in Remaining(p, iter, b0.inBlock);
    assert b0.inBlock + k.added == b.inBlock;
    if outcome == Broken {
      var x :| x in Remaining(p, iter, b0.inBlock) && x !in b.inBlock && !Wanted(p, o, |b.order|, x);
      assert x in Remaining(p, iter, b.inBlock);
    }
  }

  lemma TookLedger(p: Pool, o: Options, start: set<Tx>, picked: seq<Pick>, b0: Block, mod0: Modified, failed0: set<Tx>, iter: Tx, outcome: Outcome,
                   b: Block, mod: Modified, failed: set<Tx>, k: Pick)
    requires Ledger(p, b0.inBlock, mod0, failed0, Handled(start, picked)) && ModifiedOk(p, mod, b.inBlock) && b0.inBlock <= b.inBlock
    requires k == Pick(iter, b.inBlock - b0.inBlock, outcome == Selected)
    requires (outcome == Selected || outcome == Broken) && Took(p, o, b0, mod0, failed0, iter, outcome, b, mod, failed)
    ensures Ledger(p, b.inBlock, mod, failed, Handled(start, picked + [k]))
  {
    var package := Remaining(p, iter, b0.inBlock);
    HandledNext(start, picked, k);
    if outcome == Selected {
      assert k.added == package;
      forall t | t in mod ensures t in p.order && t !in b0.inBlock {
        assert Listed(p, mod, b.inBlock, t);
      }
      LedgerNext(p, b0.inBlock, mod0, failed0, Handled(start, picked), package, mod);
    } else {
      LedgerErases(p, b0.inBlock, mod0, failed0, Handled(start, picked), package, b.inBlock, failed);
      assert Handled(start, picked) + [] == Handled(start, picked);
    }
  }

  lemma TookCovers(p: Pool, o: Options, log0: seq<Refusal>, b0: Block, mod0: Modified, failed0: set<Tx>, iter: Tx, outcome: Outcome,
                   b: Block, mod: Modified, failed: set<Tx>) returns (log: seq<Refusal>)
    requires PoolOk(p) && LogOk(p, o, log0, b0.inBlock) && b0.inBlock <= b.inBlock && BlockOk(p, b) && failed0 <= Turned(log0)
    requires iter in p.order && Took(p, o, b0, mod0, failed0, iter, outcome, b, mod, failed)
    ensures LogOk(p, o, log, b.inBlock) && failed <= Turned(log) && Turned(log0) <= Turned(log)
    ensures forall t | t in mod0 || t == iter :: t in b0.inBlock || t in mod || t in b.inBlock || t in Turned(log)
  {
    var package := Remaining(p, iter, b0.inBlock);
    log := log0;
    if outcome != Selected {
      var rest := Remaining(p, iter, b.inBlock);
      assert rest == package - b.inBlock;
      FamilyInPool(p, iter);
      forall t | t in rest ensures BrokenOff(p, o, t, b) {}
      log := LogBroken(p, o, log0, b, rest);
    } else {
      forall t | t in mod0 ensures t in mod || t in b.inBlock {
        assert Updated(p, mod0 - package, mod, t, Ascending(package), package);
      }
    }
  }

  /** With much room nothing is ever turned down. */
  lemma RoomyTakesAll(p: Pool, o: Options, log: seq<Refusal>, inBlock: set<Tx>)
    requires PoolOk(p) && Roomy(p, o) && LogOk(p, o, log, inBlock)
    ensures log == []
  {
    assert log != [] ==> Turned(log[..0]) == {} && Justified(p, o, log[0], Turned(log[..0]));
    if log != [] {
      RoomyNeedsNoRefusal(p, o, log[0]);
    }
  }

  lemma RoomyNeedsNoRefusal(p: Pool, o: Options, r: Refusal)
    requires PoolOk(p) && Roomy(p, o)
    ensures !Justified(p, o, r, {})
  {
    assert forall x :: Wanted(p, o, |r.block.order|, x);
    if r.tx in p.order && BlockOk(p, r.block) && AtMost(r.tot, p.cached(r.tx)) {
      RoomySelects(p, o, r.block, r.tx, r.tot);
    }
  }

  /** With much room no round can fail. */
  lemma RoomySelects(p: Pool, o: Options, b: Block, t: Tx, tot: Totals)
    requires PoolOk(p) && BlockOk(p, b) && Roomy(p, o) && t in p.order && AtMost(tot, p.cached(t))
    ensures AlwaysAccepts(o) && !Oversized(o, b, tot) && !Unready(p, o, Remaining(p, t, b.inBlock), {})
  {
    BlockInPool(p, b);
    TwiceInPool(p, b.inBlock, t);
    RoomyFits(p, o, b, t, tot);
    RoomyReady(p, o, t, b.inBlock);
  }

  lemma RoomyReady(p: Pool, o: Options, t: Tx, inBlock: set<Tx>)
    requires PoolOk(p) && (forall x | x in p.order :: Mineable(p, o, x)) && t in p.order
    ensures !Unready(p, o, Remaining(p, t, inBlock), {})
  {
    FamilyInPool(p, t);
  }

  /** The pool is used up further: the measure by which the selection ends. */
  ghost predicate Closer(p: Pool, b0: Block, mod0: Modified, mi0: nat, b: Block, mod: Modified, mi: nat) {
    || Left(p, b) < Left(p, b0)
    || (Left(p, b) == Left(p, b0) && (mi > mi0 || (mi == mi0 && |mod.Keys| < |mod0.Keys|)))
  }

  lemma GetsCloser(p: Pool, b0: Block, mod0: Modified, mi0: nat, b: Block, mod: Modified, mi: nat, iter: Tx)
    requires BlockOk(p, b) && b0.inBlock <= b.inBlock && (mi == mi0 || mi == mi0 + 1)
    requires b.inBlock == b0.inBlock && mi == mi0 ==> mod.Keys <= mod0.Keys && iter in mod0 && iter !in mod
    ensures Closer(p, b0, mod0, mi0, b, mod, mi)
  {
    LeftShrinks(p, b0, b);
    if b.inBlock == b0.inBlock && mi == mi0 {
      Sets.ProperSubsetSize(mod.Keys, mod0.Keys);
    }
  }

  /** What a block of pool transactions and the family of t use together. */
  ghost predicate UsesTwice(p: Pool, s: set<Tx>, t: Tx) {
    && Sum(s, p.weight) + WITNESS_SCALE_FACTOR * p.cached(t).size <= 2 * WITNESS_SCALE_FACTOR * Sum(AllTxs(p), p.size)
    && Sum(s, p.sigOps) + p.cached(t).sigOps <= 2 * Sum(AllTxs(p), p.sigOps)
    && Sum(s, p.mwebWeight) + p.cached(t).mwebWeight <= 2 * Sum(AllTxs(p), p.mwebWeight)
  }

  lemma RoomyFits(p: Pool, o: Options, b: Block, t: Tx, tot: Totals)
    requires TotalsOk(p, b) && MuchRoom(p, o) && AtMost(tot, p.cached(t)) && UsesTwice(p, b.inBlock, t)
    ensures !Oversized(o, b, tot)
  {
  }

  lemma TwiceInPool(p: Pool, s: set<Tx>, t: Tx)
    requires PoolOk(p) && s <= AllTxs(p) && t in p.order
    ensures UsesTwice(p, s, t)
  {
    WeightsFit(p, s);
    TwiceSize(p, s, t);
    TwiceSigOps(p, s, t);
    TwiceMweb(p, s, t);
  }

  lemma TwiceSize(p: Pool, s: set<Tx>, t: Tx)
    requires PoolOk(p) && s <= AllTxs(p) && t in p.order
    ensures Sum(s, p.size) + p.cached(t).size <= 2 * Sum(AllTxs(p), p.size)
  {
    FamilyInPool(p, t);
    forall x | x in AllTxs(p) ensures p.size(x) >= 0 { assert TxOk(p, x); }
    TwiceAll(s, Family(p, t), AllTxs(p), p.size);
    assert TxOk(p, t);
  }

  lemma TwiceSigOps(p: Pool, s: set<Tx>, t: Tx)
    requires PoolOk(p) && s <= AllTxs(p) && t in p.order
    ensures Sum(s, p.sigOps) + p.cached(t).sigOps <= 2 * Sum(AllTxs(p), p.sigOps)
  {
    FamilyInPool(p, t);
    forall x | x in AllTxs(p) ensures p.sigOps(x) >= 0 { assert TxOk(p, x); }
    TwiceAll(s, Family(p, t), AllTxs(p), p.sigOps);
    assert TxOk(p, t);
  }

  lemma TwiceMweb(p: Pool, s: set<Tx>, t: Tx)
    requires PoolOk(p) && s <= AllTxs(p) && t in p.order
    ensures Sum(s, p.mwebWeight) + p.cached(t).mwebWeight <= 2 * Sum(AllTxs(p), p.mwebWeight)
  {
    FamilyInPool(p, t);
    forall x | x in AllTxs(p) ensures p.mwebWeight(x) >= 0 { assert TxOk(p, x); }
    TwiceAll(s, Family(p, t), AllTxs(p), p.mwebWeight);
    assert TxOk(p, t);
  }

  lemma TwiceAll(s: set<Tx>, u: set<Tx>, all: set<Tx>, f: Tx -> int)
    requires s <= all && u <= all && forall x | x in all :: f(x) >= 0
    ensures Sum(s, f) + Sum(u, f) <= 2 * Sum(all, f)
  {
    SumMono(s, all, f);
    SumMono(u, all, f);
  }

  lemma BlockInPool(p: Pool, b: Block)
    requires BlockOk(p, b)
    ensures b.inBlock <= AllTxs(p)
  {
    forall x | x in b.inBlock ensures x in p.order {
      var i :| 0 <= i < |b.order| && b.order[i] == x;
    }
  }

  lemma {:induction false} WeightsFit(p: Pool, s: set<Tx>)
    requires PoolOk(p) && s <= AllTxs(p)
    ensures Sum(s, p.weight) <= WITNESS_SCALE_FACTOR * Sum(s, p.size)
    decreases s
  {
    if s != {} {
      var x :| x in s;
      SumSplit(s, x, p.weight);
      SumSplit(s, x, p.size);
      assert TxOk(p, x);
      WeightsFit(p, s - {x});
    }
  }

  lemma StaysCovered(p: Pool, b0: Block, b: Block, mod0: Modified, mod: Modified, log0: seq<Refusal>, log: seq<Refusal>,
                     mi0: nat, mi: nat, iter: Tx)
    requires mi0 <= mi <= mi0 + 1 && mi <= |p.order| && Covered(p, b0, mod0, log0, mi0) && (mi0 < mi ==> p.order[mi0] == iter)
    requires b0.inBlock <= b.inBlock && Turned(log0) <= Turned(log)
    requires forall t | t in mod0 || t == iter :: t in b0.inBlock || t in mod || t in b.inBlock || t in Turned(log)
    ensures Covered(p, b, mod, log, mi)
  {
    forall k | 0 <= k < mi ensures p.order[k] in b.inBlock || p.order[k] in mod || p.order[k] in Turned(log) {
      var t: Tx := p.order[k];
      assert k < mi0 ==> t in b0.inBlock || t in mod0 || t in Turned(log0);
    }
  }

  lemma NeedsOwnSize(p: Pool, t: Tx, tot: Totals, inBlock: set<Tx>)
    requires PoolOk(p) && t in p.order && t !in inBlock && Bounds(p, t, tot, inBlock)
    ensures tot.size >= p.size(t) >= 0
  {
    FamilyInPool(p, t);
    assert TxOk(p, t);
    SumSplit(Remaining(p, t, inBlock), t, p.size);
    SumMono({}, Remaining(p, t, inBlock) - {t}, p.size);
  }

  lemma HasRate(p: Pool, t: Tx, tot: Totals, inBlock: set<Tx>)
    requires PoolOk(p) && Ranked(p) && t in p.order && t !in inBlock && Bounds(p, t, tot, inBlock)
    ensures IsRate(Picked(ScoreOf(p, t, tot)))
  {
    NeedsOwnSize(p, t, tot, inBlock);
    ScoredHasRate(ScoreOf(p, t, tot));
  }

  /** Among entries with rates, what is no better than b is no better than what is better than b. */
  lemma NoBetterTrans(a: Entry, b: Entry, c: Entry)
    requires IsRate(Picked(a)) && IsRate(Picked(b)) && IsRate(Picked(c)) && !Better(a, b) && Better(c, b)
    ensures !Better(a, c)
  {
    if Better(a, c) { BetterTrans(a, c, b); }
  }

  // the first entry of the side table in the order of scores
  method BestModified(p: Pool, ghost inBlock: set<Tx>, mod: Modified) returns (best: Tx)
    requires PoolOk(p) && ModifiedOk(p, mod, inBlock) && mod != map[]
    ensures best in mod
    ensures Ranked(p) ==> forall t | t in mod :: !Better(ScoreOf(p, t, mod[t]), ScoreOf(p, best, mod[best]))
  {
    best :| best in mod;
    var rest := mod.Keys - {best};
    while rest != {}
      invariant rest <= mod.Keys && best in mod
      invariant Ranked(p) ==> forall t | t in mod && t !in rest :: !Better(ScoreOf(p, t, mod[t]), ScoreOf(p, best, mod[best]))
      decreases rest
    {
      var t :| t in rest;
      rest := rest - {t};
      if Better(ScoreOf(p, t, mod[t]), ScoreOf(p, best, mod[best])) {
        if Ranked(p) { StillBest(p, inBlock, mod, rest, best, t); }
        best := t;
      }
    }
  }

  lemma StillBest(p: Pool, inBlock: set<Tx>, mod: Modified, rest: set<Tx>, best: Tx, next: Tx)
    requires PoolOk(p) && Ranked(p) && ModifiedOk(p, mod, inBlock) && best in mod && next in mod
    requires Better(ScoreOf(p, next, mod[next]), ScoreOf(p, best, mod[best]))
    requires forall t | t in mod && t !in rest && t != next :: !Better(ScoreOf(p, t, mod[t]), ScoreOf(p, best, mod[best]))
    ensures forall t | t in mod && t !in rest :: !Better(ScoreOf(p, t, mod[t]), ScoreOf(p, next, mod[next]))
  {
    forall t | t in mod ensures IsRate(Picked(ScoreOf(p, t, mod[t]))) {
      assert Listed(p, mod, inBlock, t);
      HasRate(p, t, mod[t], inBlock);
    }
    forall t | t in mod && t !in rest ensures !Better(ScoreOf(p, t, mod[t]), ScoreOf(p, next, mod[next])) {
      if t != next {
        NoBetterTrans(ScoreOf(p, t, mod[t]), ScoreOf(p, best, mod[best]), ScoreOf(p, next, mod[next]));
      }
    }
  }

  /** The better of the best entry of the side table and the next transaction of the pool is the best of all. */
  lemma BetterOfTwo(p: Pool, inBlock: set<Tx>, mod: Modified, mi: nat, best: Tx)
    requires PoolOk(p) && Ranked(p) && ModifiedOk(p, mod, inBlock) && best in mod && mi < |p.order| && p.order[mi] !in inBlock
    requires forall t | t in mod :: !Better(ScoreOf(p, t, mod[t]), ScoreOf(p, best, mod[best]))
    ensures var x, y := ScoreOf(p, best, mod[best]), ScoreOf(p, p.order[mi], p.cached(p.order[mi]));
            IsBest(p, mod, mi, if Better(x, y) then x else y)
  {
    var x, y := ScoreOf(p, best, mod[best]), ScoreOf(p, p.order[mi], p.cached(p.order[mi]));
    assert Listed(p, mod, inBlock, best);
    HasRate(p, best, mod[best], inBlock);
    CachedRate(p, mi);
    if Better(x, y) {
      forall k | mi <= k < |p.order| ensures !Better(ScoreOf(p, p.order[k], p.cached(p.order[k])), x) {
        CachedRate(p, k);
        NoBetterTrans(ScoreOf(p, p.order[k], p.cached(p.order[k])), y, x);
      }
    } else {
      forall t | t in mod ensures !Better(ScoreOf(p, t, mod[t]), y) {
        assert Listed(p, mod, inBlock, t);
        HasRate(p, t, mod[t], inBlock);
        NotAbove(ScoreOf(p, t, mod[t]), x, y);
      }
    }
  }

  lemma CachedRate(p: Pool, k: nat)
    requires PoolOk(p) && Ranked(p) && k < |p.order|
    ensures IsRate(Picked(ScoreOf(p, p.order[k], p.cached(p.order[k]))))
    ensures !Better(ScoreOf(p, p.order[k], p.cached(p.order[k])), ScoreOf(p, p.order[k], p.cached(p.order[k])))
  {
    CachedBounds(p, p.order[k], {});
    HasRate(p, p.order[k], p.cached(p.order[k]), {});
  }

  lemma NotAbove(a: Entry, x: Entry, y: Entry)
    requires IsRate(Picked(a)) && IsRate(Picked(x)) && IsRate(Picked(y)) && !Better(a, x) && !Better(x, y) && (a.tx == x.tx ==> a == x)
    ensures !Better(a, y)
  {
    if Better(a, y) && a != x {
      BetterTotal(a, x);
      BetterTrans(x, a, y);
    }
  }

  // The next transaction of the pool, or the best one of the side table if that scores better.
  method Choose(p: Pool, b: Block, mod: Modified, mi: nat) returns (iter: Tx, tot: Totals, usingModified: bool)
    requires PoolOk(p) && ModifiedOk(p, mod, b.inBlock) && mi <= |p.order| && (mi == |p.order| ==> mod != map[])
    requires mi < |p.order| ==> p.order[mi] !in b.inBlock
    ensures iter in p.order && iter !in b.inBlock && Bounds(p, iter, tot, b.inBlock) && AtMost(tot, p.cached(iter))
    ensures if usingModified then iter in mod && tot == mod[iter] else mi < |p.order| && iter == p.order[mi] && tot == p.cached(iter)
    ensures Ranked(p) ==> IsBest(p, mod, mi, ScoreOf(p, iter, tot))
  {
    if mi < |p.order| {
      iter, usingModified := p.order[mi], false;
      tot := p.cached(iter);
      CachedBounds(p, iter, b.inBlock);
      if Ranked(p) { CachedRate(p, mi); }
    }
    if mod != map[] {
      var best := BestModified(p, b.inBlock, mod);
      assert Listed(p, mod, b.inBlock, best);
      if mi < |p.order| && Ranked(p) { BetterOfTwo(p, b.inBlock, mod, mi, best); }
      if mi == |p.order| || Better(ScoreOf(p, best, mod[best]), ScoreOf(p, iter, tot)) {
        iter, tot, usingModified := best, mod[best], true;
      }
    }
  }

  /** What is left of the pool never grows, and shrinks when the block grows. */
  lemma LeftShrinks(p: Pool, b0: Block, b: Block)
    requires BlockOk(p, b) && b0.inBlock <= b.inBlock
    ensures Left(p, b) <= Left(p, b0)
    ensures b.inBlock != b0.inBlock ==> Left(p, b) < Left(p, b0)
  {
    var after, before := AllTxs(p) - b.inBlock, AllTxs(p) - b0.inBlock;
    Sets.SubsetSize(after, before);
    if b.inBlock != b0.inBlock {
      Sets.HasMember(b.inBlock - b0.inBlock);
      var x :| x in b.inBlock - b0.inBlock;
      var i :| 0 <= i < |b.order| && b.order[i] == x;
      assert x in p.order;
      assert x in before && x !in after;
      Sets.ProperSubsetSize(after, before);
    }
  }

  ghost predicate ListedBefore(p: Pool, vtx: seq<Tx>, k: nat)
    requires k < |vtx|
  {
    forall a | a in p.ancestors(vtx[k]) && !p.mwebOnly(a) :: a in vtx[..k]
  }

  lemma {:induction false} VisibleMembers(p: Pool, order: seq<Tx>)
    ensures forall x :: x in Visible(p, order) <==> x in order && !p.mwebOnly(x)
    decreases |order|
  {
    if order != [] {
      var last := |order| - 1;
      VisibleMembers(p, order[..last]);
      assert order == order[..last] + [order[last]];
    }
  }

  /** What the block lists is itself in a valid order: every listed transaction comes after
      all those ancestors that are listed. */
  lemma {:induction false} VisibleInOrder(p: Pool, order: seq<Tx>, k: nat)
    requires forall i | 0 <= i < |order| :: AncestorsBefore(p, order, i)
    requires k < |Visible(p, order)|
    ensures ListedBefore(p, Visible(p, order), k)
    decreases |order|
  {
    var last := |order| - 1;
    var rest, v, w := order[..last], Visible(p, order[..last]), Visible(p, order);
    VisibleMembers(p, rest);
    if k < |v| {
      forall i | 0 <= i < |rest| ensures AncestorsBefore(p, rest, i) {
        assert AncestorsBefore(p, order, i) && rest[..i] == order[..i];
      }
      VisibleInOrder(p, rest, k);
      assert w[k] == v[k] && w[..k] == v[..k];
    } else {
      assert w[k] == order[last] && w[..k] == v;
      assert AncestorsBefore(p, order, last);
    }
  }

  class BlockAssembler {
    const pool: Pool
    const options: Options
    var block: Block

    constructor (pool: Pool, options: Options)
      ensures this.pool == pool && this.options == options.(nBlockMaxWeight := MaxWeight(options.nBlockMaxWeight))
      ensures block == EMPTY_BLOCK
    {
      this.pool := pool;
      this.options := options.(nBlockMaxWeight := MaxWeight(options.nBlockMaxWeight));
      block := EMPTY_BLOCK;
    }

    // CreateNewBlock's selection: an empty block filled with packages.
    method FillBlock() returns (nPackagesSelected: nat, stop: Stop, ghost h: History)
      requires PoolOk(pool) && 4000 <= options.nBlockMaxWeight
      modifies this
      ensures Finished(pool, options, {}, block, stop, h) && |h.picked| == nPackagesSelected
      ensures stop == Exhausted && Roomy(pool, options) ==> block.inBlock == AllTxs(pool)
      ensures forall k | 0 <= k < |block.vtx| :: ListedBefore(pool, block.vtx, k)
    {
      block := EMPTY_BLOCK;
      block, nPackagesSelected, stop, h := SelectPackages(pool, options, block);
      BlockInPool(pool, block);
      if Roomy(pool, options) { RoomyTakesAll(pool, options, h.log, block.inBlock); }
      forall k | 0 <= k < |block.vtx| ensures ListedBefore(pool, block.vtx, k) {
        VisibleInOrder(pool, block.order, k);
      }
    }
  }
}
