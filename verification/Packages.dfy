/** The totals of a transaction with its ancestors, in the pool and in the miner's side table
    (src/miner.cpp, src/miner.h).

    The mempool is a finite DAG given by its transitive closure.  Transactions are numbered in the
    order of their hashes. */
module Packages {
  type Tx = nat

  const WITNESS_SCALE_FACTOR := 4

  datatype Totals = Totals(size: int, modFees: int, sigOps: int, mwebWeight: int)

  /** `order` lists the pool by ancestor score; `cached` holds the totals over a transaction
      and its ancestors, and `count` their number. */
  datatype Pool = Pool(
    order: seq<Tx>, ancestors: Tx -> set<Tx>,
    size: Tx -> int, weight: Tx -> int, sigOps: Tx -> int, mwebWeight: Tx -> int,
    fee: Tx -> int, modFee: Tx -> int,
    isFinal: Tx -> bool, hasWitness: Tx -> bool, hasMweb: Tx -> bool, mwebOnly: Tx -> bool,
    cached: Tx -> Totals, count: Tx -> int)

  ghost function Sum(s: set<Tx>, f: Tx -> int): int {
    if s == {} then 0 else
      var x :| x in s;
      f(x) + Sum(s - {x}, f)
  }

  lemma {:induction false} SumSplit(s: set<Tx>, x: Tx, f: Tx -> int)
    requires x in s
    ensures Sum(s, f) == f(x) + Sum(s - {x}, f)
    decreases s
  {
    var y :| y in s && Sum(s, f) == f(y) + Sum(s - {y}, f);
    if y != x {
      SumSplit(s - {y}, x, f);
      SumSplit(s - {x}, y, f);
      assert s - {y} - {x} == s - {x} - {y};
    }
  }

  lemma {:induction false} SumMono(a: set<Tx>, b: set<Tx>, f: Tx -> int)
    requires a <= b && forall x | x in b :: f(x) >= 0
    ensures 0 <= Sum(a, f) <= Sum(b, f)
    decreases b
  {
    if b != {} {
      var x :| x in b;
      SumSplit(b, x, f);
      if x in a { SumSplit(a, x, f); }
      assert a - {x} <= b - {x};
      if x !in a { assert a - {x} == a; }
      SumMono(a - {x}, b - {x}, f);
    } else {
      assert a == {};
    }
  }

  ghost function Family(p: Pool, t: Tx): set<Tx> {
    p.ancestors(t) + {t}
  }

  /** The transactions that must enter the block with t. */
  ghost function Remaining(p: Pool, t: Tx, inBlock: set<Tx>): set<Tx> {
    Family(p, t) - inBlock
  }

  ghost predicate TxOk(p: Pool, t: Tx) {
    && t !in p.ancestors(t)
    && (forall a | a in p.ancestors(t) :: a in p.order && p.ancestors(a) <= p.ancestors(t))
    && 0 <= p.size(t) && 0 <= p.sigOps(t) && 0 <= p.mwebWeight(t) && 0 <= p.weight(t) <= WITNESS_SCALE_FACTOR * p.size(t)
    && p.cached(t).size == Sum(Family(p, t), p.size)
    && p.cached(t).modFees == Sum(Family(p, t), p.modFee)
    && p.cached(t).sigOps == Sum(Family(p, t), p.sigOps)
    && p.cached(t).mwebWeight == Sum(Family(p, t), p.mwebWeight)
    && p.count(t) == |p.ancestors(t)| + 1
  }

  ghost predicate Distinct(s: seq<Tx>) {
    forall i, j | 0 <= i < j < |s| :: s[i] != s[j]
  }

  /** The pool is a DAG with true cached totals, and weights are at most four times sizes. */
  ghost predicate PoolOk(p: Pool) {
    Distinct(p.order) && forall t {:trigger TxOk(p, t)} | t in p.order :: TxOk(p, t)
  }

  /** `tot` is at least what t still needs. */
  ghost predicate Bounds(p: Pool, t: Tx, tot: Totals, inBlock: set<Tx>) {
    && tot.size >= Sum(Remaining(p, t, inBlock), p.size)
    && tot.sigOps >= Sum(Remaining(p, t, inBlock), p.sigOps)
    && tot.mwebWeight >= Sum(Remaining(p, t, inBlock), p.mwebWeight)
  }

  lemma FamilyInPool(p: Pool, t: Tx)
    requires PoolOk(p) && t in p.order
    ensures forall x | x in Family(p, t) :: x in p.order && TxOk(p, x)
  {
    assert TxOk(p, t);
  }

  /** Cached totals bound what is needed, whatever is in the block. */
  lemma CachedBounds(p: Pool, t: Tx, inBlock: set<Tx>)
    requires PoolOk(p) && t in p.order
    ensures Bounds(p, t, p.cached(t), inBlock)
  {
    FamilyInPool(p, t);
    assert TxOk(p, t);
    var rest := Remaining(p, t, inBlock);
    SumMono(rest, Family(p, t), p.size);
    SumMono(rest, Family(p, t), p.sigOps);
    SumMono(rest, Family(p, t), p.mwebWeight);
  }

  function Less(p: Pool, tot: Totals, it: Tx, fee: int): Totals {
    Totals(tot.size - p.size(it), tot.modFees - fee, tot.sigOps - p.sigOps(it), tot.mwebWeight - p.mwebWeight(it))
  }

  type Modified = map<Tx, Totals>

  ghost predicate AtMost(x: Totals, y: Totals) {
    x.size <= y.size && x.sigOps <= y.sigOps && x.mwebWeight <= y.mwebWeight
  }

  /** No entry of the side table is in the block, and every entry is an upper bound, though never
      above the cached totals. */
  ghost predicate ModifiedOk(p: Pool, mod: Modified, inBlock: set<Tx>) {
    forall t {:trigger Listed(p, mod, inBlock, t)} | t in mod :: Listed(p, mod, inBlock, t)
  }

  ghost predicate Listed(p: Pool, mod: Modified, inBlock: set<Tx>, t: Tx)
    requires t in mod
  {
    t in p.order && t !in inBlock && Bounds(p, t, mod[t], inBlock) && AtMost(mod[t], p.cached(t))
  }

  /** The totals of an entry before anything is taken off. */
  function Base(p: Pool, mod: Modified, t: Tx): Totals {
    if t in mod then mod[t] else p.cached(t)
  }

  /** `tot` is `base` without the ancestors of t that are in s. */
  ghost predicate Without(p: Pool, t: Tx, base: Totals, tot: Totals, s: set<Tx>) {
    && tot.size == base.size - Sum(p.ancestors(t) * s, p.size)
    && tot.sigOps == base.sigOps - Sum(p.ancestors(t) * s, p.sigOps)
    && tot.mwebWeight == base.mwebWeight - Sum(p.ancestors(t) * s, p.mwebWeight)
  }

  // ---------- taking included transactions off ----------

  ghost function Members(s: seq<Tx>): set<Tx> {
    set x | x in s
  }

  lemma MembersNext(s: seq<Tx>, it: Tx)
    ensures Members(s + [it]) == Members(s) + {it}
  {
  }

  /** The ancestors of t in s. */
  ghost function Hit(p: Pool, t: Tx, s: seq<Tx>): set<Tx> {
    p.ancestors(t) * Members(s)
  }

  /** What the transactions of s, taken off one after the other, leave of the totals `base` of t.  Each
      ancestor takes its base fee with it, except that one that brings t into the table takes its
      modified fee. */
  ghost function Off(p: Pool, t: Tx, listed: bool, base: Totals, s: seq<Tx>): Totals
    decreases |s|
  {
    if s == [] then base else
      var before, it := s[..|s| - 1], s[|s| - 1];
      var tot := Off(p, t, listed, base, before);
      if it !in p.ancestors(t) then tot
      else Less(p, tot, it, if listed || Hit(p, t, before) != {} then p.fee(it) else p.modFee(it))
  }

  lemma OffNext(p: Pool, t: Tx, listed: bool, base: Totals, s: seq<Tx>, it: Tx)
    ensures Off(p, t, listed, base, s + [it]) ==
            if it !in p.ancestors(t) then Off(p, t, listed, base, s)
            else Less(p, Off(p, t, listed, base, s), it, if listed || Hit(p, t, s) != {} then p.fee(it) else p.modFee(it))
  {
    assert (s + [it])[..|s|] == s;
  }

  lemma {:induction false} OffUnmet(p: Pool, t: Tx, listed: bool, base: Totals, s: seq<Tx>)
    requires Hit(p, t, s) == {}
    ensures Off(p, t, listed, base, s) == base
    decreases |s|
  {
    if s != [] {
      var before, it := s[..|s| - 1], s[|s| - 1];
      assert s == before + [it];
      MembersNext(before, it);
      assert it in Members(s) && it !in Hit(p, t, s);
      OffUnmet(p, t, listed, base, before);
    }
  }

  /** Taking off in two turns is taking off at once. */
  lemma {:induction false} OffAgain(p: Pool, t: Tx, listed: bool, base: Totals, s: seq<Tx>, r: seq<Tx>)
    ensures Off(p, t, listed, base, s + r) == Off(p, t, listed || Hit(p, t, s) != {}, Off(p, t, listed, base, s), r)
    ensures Hit(p, t, s + r) == Hit(p, t, s) + Hit(p, t, r)
    decreases |r|
  {
    if r == [] {
      assert s + r == s;
    } else {
      var before, it := r[..|r| - 1], r[|r| - 1];
      assert r == before + [it] && s + r == s + before + [it];
      OffAgain(p, t, listed, base, s, before);
      OffNext(p, t, listed, base, s + before, it);
    }
  }

  /** `tot` is `base` without the ancestors of t that are in s. */
  lemma {:induction false} OffWithout(p: Pool, t: Tx, listed: bool, base: Totals, s: seq<Tx>)
    requires Distinct(s)
    ensures Without(p, t, base, Off(p, t, listed, base, s), Members(s))
    decreases |s|
  {
    if s == [] {
      WithoutNone(p, t, base);
    } else {
      var before, it := s[..|s| - 1], s[|s| - 1];
      assert s == before + [it] && it !in before;
      MembersNext(before, it);
      OffWithout(p, t, listed, base, before);
      if it in p.ancestors(t) {
        WithoutOneMore(p, t, base, Off(p, t, listed, base, before), Members(before), it, if listed || Hit(p, t, before) != {} then p.fee(it) else p.modFee(it));
      } else {
        assert p.ancestors(t) * Members(s) == p.ancestors(t) * Members(before);
      }
    }
  }

  /** The ancestor of t that is taken off first. */
  ghost function First(p: Pool, t: Tx, s: seq<Tx>): (r: Tx)
    requires Hit(p, t, s) != {}
    ensures r in Hit(p, t, s)
    decreases |s|
  {
    var x :| x in Hit(p, t, s);
    var before := s[..|s| - 1];
    assert s == before + [s[|s| - 1]];
    if Hit(p, t, before) != {} then First(p, t, before) else s[|s| - 1]
  }

  /** How far the fees of a transaction are raised or lowered by the user. */
  ghost function Delta(p: Pool): Tx -> int {
    (t: Tx) => p.modFee(t) - p.fee(t)
  }

  /** The change that is taken off with the first ancestor of an entry new to the table. */
  ghost function Counted(p: Pool, t: Tx, listed: bool, s: seq<Tx>): int {
    if listed || Hit(p, t, s) == {} then 0 else Delta(p)(First(p, t, s))
  }

  lemma {:induction false} OffFees(p: Pool, t: Tx, listed: bool, base: Totals, s: seq<Tx>)
    requires Distinct(s)
    ensures Off(p, t, listed, base, s).modFees == base.modFees - Sum(Hit(p, t, s), p.fee) - Counted(p, t, listed, s)
    decreases |s|
  {
    if s == [] {
      assert Hit(p, t, s) == {};
    } else {
      var before, it := s[..|s| - 1], s[|s| - 1];
      assert s == before + [it] && it !in before;
      MembersNext(before, it);
      OffFees(p, t, listed, base, before);
      if it in p.ancestors(t) {
        assert Hit(p, t, s) - {it} == Hit(p, t, before);
        SumSplit(Hit(p, t, s), it, p.fee);
      } else {
        assert Hit(p, t, s) == Hit(p, t, before);
      }
    }
  }

  lemma {:induction false} SumDelta(p: Pool, s: set<Tx>)
    ensures Sum(s, Delta(p)) == Sum(s, p.modFee) - Sum(s, p.fee)
    decreases s
  {
    if s != {} {
      var x :| x in s;
      SumSplit(s, x, Delta(p));
      SumSplit(s, x, p.modFee);
      SumSplit(s, x, p.fee);
      SumDelta(p, s - {x});
    }
  }

  /** How wrong the modified fees left are: by the changes of all the fees taken off, except the change of
      the first for an entry new to the table.  They are right exactly when those cancel. */
  lemma FeesRight(p: Pool, t: Tx, listed: bool, base: Totals, s: seq<Tx>)
    requires Distinct(s)
    ensures var right := base.modFees - Sum(Hit(p, t, s), p.modFee);
            && Off(p, t, listed, base, s).modFees == right + Sum(Hit(p, t, s), Delta(p)) - Counted(p, t, listed, s)
            && (Off(p, t, listed, base, s).modFees == right <==> Sum(Hit(p, t, s), Delta(p)) == Counted(p, t, listed, s))
  {
    OffFees(p, t, listed, base, s);
    SumDelta(p, Hit(p, t, s));
  }

  // ---------- UpdatePackagesForAdded ----------

  ghost function Least(s: set<Tx>): (x: Tx)
    requires s != {}
    ensures x in s && forall y | y in s :: x <= y
  {
    var x :| x in s;
    if s == {x} then x else
      var y := Least(s - {x});
      assert s == s - {x} + {x};
      if x < y then x else y
  }

  /** A set in the order of the hashes, which is the order of the numbers. */
  ghost function Ascending(s: set<Tx>): (r: seq<Tx>)
    ensures Members(r) == s && Distinct(r)
  {
    if s == {} then [] else
      var x := Least(s);
      assert s == {x} + (s - {x});
      [x] + Ascending(s - {x})
  }

  // the first transaction of a set in the order of the hashes
  method LeastOf(s: set<Tx>) returns (x: Tx)
    requires s != {}
    ensures x in s && forall y | y in s :: x <= y
  {
    var rest := s;
    x :| x in rest;
    rest := rest - {x};
    while rest != {}
      invariant rest <= s && x in s && forall y | y in s && y !in rest :: x <= y
      decreases rest
    {
      var y :| y in rest;
      rest := rest - {y};
      if y < x {
        x := y;
      }
    }
  }

  /** What becomes of transaction t when those in s are taken off one after the other: it is in the table if
      it was before or has an ancestor in s. */
  ghost predicate Updated(p: Pool, modIn: Modified, mod: Modified, t: Tx, s: seq<Tx>, added: set<Tx>) {
    && (t in mod <==> t in modIn || (t in p.order && t !in added && Hit(p, t, s) != {}))
    && (t in mod ==> mod[t] == Off(p, t, t in modIn, Base(p, modIn, t), s))
  }

  ghost predicate TakenOff(p: Pool, modIn: Modified, mod: Modified, s: seq<Tx>, added: set<Tx>) {
    forall t :: Updated(p, modIn, mod, t, s, added)
  }

  /** While `it` is taken off: done for the transactions in `seen`. */
  ghost predicate Halfway(p: Pool, modIn: Modified, mod: Modified, s: seq<Tx>, it: Tx, seen: set<Tx>, added: set<Tx>) {
    forall t :: Updated(p, modIn, mod, t, if t in seen then s + [it] else s, added)
  }

  ghost predicate Outside(p: Pool, mod: Modified, added: set<Tx>) {
    forall t | t in mod :: t in p.order && t !in added
  }

  function Descendants(p: Pool, it: Tx): set<Tx> {
    set t | t in p.order && (it in p.ancestors(t) || t == it)
  }

  lemma WithoutNone(p: Pool, t: Tx, base: Totals)
    ensures Without(p, t, base, base, {})
  {
    assert p.ancestors(t) * {} == {};
  }

  lemma WithoutOneMore(p: Pool, t: Tx, base: Totals, tot: Totals, s: set<Tx>, it: Tx, fee: int)
    requires Without(p, t, base, tot, s) && it in p.ancestors(t) && it !in s
    ensures Without(p, t, base, Less(p, tot, it, fee), s + {it})
  {
    var all := p.ancestors(t) * (s + {it});
    assert all - {it} == p.ancestors(t) * s;
    SumSplit(all, it, p.size);
    SumSplit(all, it, p.sigOps);
    SumSplit(all, it, p.mwebWeight);
  }

  lemma UpdatedUnrelated(p: Pool, modIn: Modified, mod: Modified, t: Tx, s: seq<Tx>, it: Tx, added: set<Tx>)
    requires Updated(p, modIn, mod, t, s, added) && it !in p.ancestors(t)
    ensures Updated(p, modIn, mod, t, s + [it], added)
  {
    MembersNext(s, it);
    assert Hit(p, t, s + [it]) == Hit(p, t, s);
    OffNext(p, t, t in modIn, Base(p, modIn, t), s, it);
  }

  lemma UpdatedTaken(p: Pool, modIn: Modified, mod: Modified, t: Tx, s: seq<Tx>, it: Tx, added: set<Tx>, mod': Modified)
    requires Updated(p, modIn, mod, t, s, added) && it in p.ancestors(t) && t in p.order && t !in added
    requires mod' == mod[t := if t in mod then Less(p, mod[t], it, p.fee(it)) else Less(p, p.cached(t), it, p.modFee(it))]
    ensures Updated(p, modIn, mod', t, s + [it], added)
  {
    MembersNext(s, it);
    assert it in Hit(p, t, s + [it]);
    OffNext(p, t, t in modIn, Base(p, modIn, t), s, it);
    if t !in mod { OffUnmet(p, t, false, p.cached(t), s); }
  }

  // One round of the inner loop.
  method TakeOff(p: Pool, ghost modIn: Modified, mod0: Modified, it: Tx, desc: Tx, added: set<Tx>, ghost s: seq<Tx>, ghost seen: set<Tx>)
    returns (mod: Modified)
    requires desc in Descendants(p, it) && desc !in seen && it in added && Outside(p, modIn, added)
    requires Halfway(p, modIn, mod0, s, it, seen, added)
    ensures Halfway(p, modIn, mod, s, it, seen + {desc}, added)
  {
    mod := mod0;
    assert Updated(p, modIn, mod0, desc, s, added);
    if desc !in added {
      if desc !in mod {
        mod := mod[desc := Less(p, p.cached(desc), it, p.modFee(it))];
      } else {
        mod := mod[desc := Less(p, mod[desc], it, p.fee(it))];
      }
      UpdatedTaken(p, modIn, mod0, desc, s, it, added, mod);
    }
    forall t ensures Updated(p, modIn, mod, t, if t in seen + {desc} then s + [it] else s, added) {
      if t != desc {
        assert Updated(p, modIn, mod0, t, if t in seen then s + [it] else s, added);
        assert t in mod <==> t in mod0;
      }
    }
  }

  // The inner loop: takes `it` off the totals of its descendants outside `added`.
  method UpdateFor(p: Pool, ghost modIn: Modified, mod0: Modified, it: Tx, added: set<Tx>, ghost s: seq<Tx>) returns (mod: Modified)
    requires it in added && Outside(p, modIn, added) && TakenOff(p, modIn, mod0, s, added)
    ensures TakenOff(p, modIn, mod, s + [it], added)
  {
    mod := mod0;
    var rest := Descendants(p, it);
    ghost var seen: set<Tx> := {};
    while rest != {}
      invariant rest + seen == Descendants(p, it) && rest !! seen
      invariant Halfway(p, modIn, mod, s, it, seen, added)
      decreases rest
    {
      var desc :| desc in rest;
      mod := TakeOff(p, modIn, mod, it, desc, added, s, seen);
      rest, seen := rest - {desc}, seen + {desc};
    }
    AllSeen(p, modIn, mod, s, it, seen, added);
  }

  lemma AllSeen(p: Pool, modIn: Modified, mod: Modified, s: seq<Tx>, it: Tx, seen: set<Tx>, added: set<Tx>)
    requires Halfway(p, modIn, mod, s, it, seen, added) && seen == Descendants(p, it) && Outside(p, modIn, added)
    ensures TakenOff(p, modIn, mod, s + [it], added)
  {
    forall t ensures Updated(p, modIn, mod, t, s + [it], added) {
      assert Updated(p, modIn, mod, t, if t in seen then s + [it] else s, added);
      if t !in seen && t in p.order {
        UpdatedUnrelated(p, modIn, mod, t, s, it, added);
      }
    }
  }

  // Takes the transactions of `added`, just put into the block, off the totals of all their
  // descendants, in the order of their hashes.
  method UpdatePackagesForAdded(p: Pool, added: set<Tx>, modIn: Modified) returns (mod: Modified)
    requires Outside(p, modIn, added)
    ensures TakenOff(p, modIn, mod, Ascending(added), added)
  {
    mod := modIn;
    var rest := added;
    ghost var s: seq<Tx> := [];
    NothingTaken(p, modIn, added);
    while rest != {}
      invariant rest <= added && s + Ascending(rest) == Ascending(added)
      invariant TakenOff(p, modIn, mod, s, added)
      decreases rest
    {
      var it := LeastOf(rest);
      NextInOrder(s, rest, it, Ascending(added));
      mod := UpdateFor(p, modIn, mod, it, added, s);
      rest, s := rest - {it}, s + [it];
    }
    assert s == Ascending(added);
  }

  lemma NextInOrder(s: seq<Tx>, rest: set<Tx>, it: Tx, all: seq<Tx>)
    requires it in rest && (forall y | y in rest :: it <= y) && s + Ascending(rest) == all
    ensures s + [it] + Ascending(rest - {it}) == all
  {
    AscendingFirst(rest, it);
  }

  lemma NothingTaken(p: Pool, modIn: Modified, added: set<Tx>)
    ensures TakenOff(p, modIn, modIn, [], added)
  {
    forall t ensures Updated(p, modIn, modIn, t, [], added) {
      assert Hit(p, t, []) == {};
    }
  }

  /** The fees come out wrong for a transaction with two ancestors if the second one included has a changed
      fee: what should be left are the modified fees of the transaction alone. */
  lemma FeesWrong(p: Pool, t: Tx, a: Tx, b: Tx, mod: Modified, mod': Modified)
    requires PoolOk(p) && t in p.order && p.ancestors(t) == {a, b} && a != b && p.modFee(b) != p.fee(b)
    requires TakenOff(p, map[], mod, Ascending({a}), {a}) && TakenOff(p, mod, mod', Ascending({b}), {b})
    ensures t in mod' && mod'[t].modFees != p.modFee(t) == Sum(Remaining(p, t, {a, b}), p.modFee)
  {
    assert TxOk(p, t) && Updated(p, map[], mod, t, Ascending({a}), {a}) && Updated(p, mod, mod', t, Ascending({b}), {b});
    AscendingOne(a);
    AscendingOne(b);
    TwoAncestors(p, t, a, b);
    OffNext(p, t, false, p.cached(t), [], a);
    OffNext(p, t, true, mod[t], [], b);
    assert Hit(p, t, []) == {} && [] + [a] == [a] && [] + [b] == [b] && a in Hit(p, t, [a]);
  }

  /** And so they do when both are included together and the second one in the order of hashes has. */
  lemma FeesWrongTogether(p: Pool, t: Tx, a: Tx, b: Tx, mod: Modified)
    requires PoolOk(p) && t in p.order && p.ancestors(t) == {a, b} && a < b && p.modFee(b) != p.fee(b)
    requires TakenOff(p, map[], mod, Ascending({a, b}), {a, b})
    ensures t in mod && mod[t].modFees != p.modFee(t) == Sum(Remaining(p, t, {a, b}), p.modFee)
  {
    assert TxOk(p, t) && Updated(p, map[], mod, t, Ascending({a, b}), {a, b});
    AscendingTwo(a, b);
    TwoAncestors(p, t, a, b);
    OffTwo(p, t, a, b);
  }

  lemma OffTwo(p: Pool, t: Tx, a: Tx, b: Tx)
    requires a in p.ancestors(t) && b in p.ancestors(t)
    ensures Hit(p, t, [a, b]) != {} && Off(p, t, false, p.cached(t), [a, b]).modFees == p.cached(t).modFees - p.modFee(a) - p.fee(b)
  {
    OffNext(p, t, false, p.cached(t), [], a);
    OffNext(p, t, false, p.cached(t), [a], b);
    assert Hit(p, t, []) == {} && [] + [a] == [a] && [a] + [b] == [a, b] && a in Hit(p, t, [a]) && a in Hit(p, t, [a, b]);
  }

  lemma AscendingTwo(a: Tx, b: Tx)
    requires a < b
    ensures Ascending({a, b}) == [a, b]
  {
    AscendingFirst({a, b}, a);
    AscendingOne(b);
    assert {a, b} - {a} == {b};
  }

  lemma AscendingFirst(s: set<Tx>, x: Tx)
    requires x in s && forall y | y in s :: x <= y
    ensures Ascending(s) == [x] + Ascending(s - {x})
  {
    assert Least(s) == x;
  }

  /** A transaction that was erased from the table after its first ancestor was included comes back, when the
      second one is, with the first one still counted. */
  lemma ComesBackStale(p: Pool, t: Tx, a: Tx, b: Tx, mod: Modified)
    requires PoolOk(p) && t in p.order && p.ancestors(t) == {a, b} && a != b
    requires TakenOff(p, map[], mod, Ascending({b}), {b})
    ensures t in mod && mod[t].size == Sum(Remaining(p, t, {a, b}), p.size) + p.size(a)
  {
    assert TxOk(p, t) && Updated(p, map[], mod, t, Ascending({b}), {b});
    AscendingOne(b);
    OffNext(p, t, false, p.cached(t), [], b);
    assert Hit(p, t, []) == {} && [] + [b] == [b] && b in Hit(p, t, [b]);
    TwoAncestorsSum(p, t, a, b, p.size);
  }

  lemma AscendingOne(a: Tx)
    ensures Ascending({a}) == [a]
  {
    assert {a} - {a} == {} && Least({a}) == a;
  }

  lemma TwoAncestors(p: Pool, t: Tx, a: Tx, b: Tx)
    requires TxOk(p, t) && p.ancestors(t) == {a, b} && a != b
    ensures p.cached(t).modFees == p.modFee(t) + p.modFee(a) + p.modFee(b) && Sum(Remaining(p, t, {a, b}), p.modFee) == p.modFee(t)
  {
    TwoAncestorsSum(p, t, a, b, p.modFee);
  }

  lemma TwoAncestorsSum(p: Pool, t: Tx, a: Tx, b: Tx, f: Tx -> int)
    requires p.ancestors(t) == {a, b} && a != b && t != a && t != b
    ensures Sum(Family(p, t), f) == f(t) + f(a) + f(b) && Sum(Remaining(p, t, {a, b}), f) == f(t)
  {
    assert Remaining(p, t, {a, b}) == {t} && {t} - {t} == {} && {a, b} - {a} == {b} && {b} - {b} == {};
    assert Family(p, t) - {t} == {a, b};
    SumSplit(Family(p, t), t, f);
    SumSplit({a, b}, a, f);
    SumSplit({b}, b, f);
    SumSplit({t}, t, f);
  }

  /** With true totals before, the totals are true bounds after. */
  lemma TakenOffBounds(p: Pool, modIn: Modified, mod: Modified, block: set<Tx>, added: set<Tx>)
    requires PoolOk(p) && block !! added && ModifiedOk(p, modIn, block) && Outside(p, modIn, added)
    requires TakenOff(p, modIn, mod, Ascending(added), added)
    requires forall t | t in p.order && t in block :: p.ancestors(t) <= block
    ensures ModifiedOk(p, mod, block + added)
  {
    forall t | t in mod ensures Listed(p, mod, block + added, t) {
      assert Updated(p, modIn, mod, t, Ascending(added), added);
      OffWithout(p, t, t in modIn, Base(p, modIn, t), Ascending(added));
      assert t in modIn ==> Listed(p, modIn, block, t);
      assert t in p.order && p.ancestors(t) <= block ==> p.ancestors(t) * added == {};
      if t !in modIn { CachedBounds(p, t, block); }
      WithoutBounds(p, t, Base(p, modIn, t), mod[t], block, added);
    }
  }

  lemma WithoutBounds(p: Pool, t: Tx, base: Totals, tot: Totals, block: set<Tx>, added: set<Tx>)
    requires PoolOk(p) && t in p.order && block !! added && t !in added
    requires Bounds(p, t, base, block) && AtMost(base, p.cached(t)) && Without(p, t, base, tot, added)
    ensures Bounds(p, t, tot, block + added) && AtMost(tot, p.cached(t))
  {
    FamilyInPool(p, t);
    PartBound(p, t, block, added, p.size, base.size);
    PartBound(p, t, block, added, p.sigOps, base.sigOps);
    PartBound(p, t, block, added, p.mwebWeight, base.mwebWeight);
  }

  lemma PartBound(p: Pool, t: Tx, block: set<Tx>, added: set<Tx>, f: Tx -> int, x: int)
    requires block !! added && t !in added && forall y | y in Family(p, t) :: f(y) >= 0
    requires x >= Sum(Remaining(p, t, block), f)
    ensures x >= x - Sum(p.ancestors(t) * added, f) >= Sum(Remaining(p, t, block + added), f)
  {
    var off, all := p.ancestors(t) * added, Remaining(p, t, block);
    assert all - off == Remaining(p, t, block + added) && off <= all;
    SumApart(all, off, f);
  }

  lemma {:induction false} SumParts(all: set<Tx>, off: set<Tx>, f: Tx -> int)
    requires off <= all
    ensures Sum(all, f) == Sum(off, f) + Sum(all - off, f)
    decreases off
  {
    if off == {} {
      assert all - off == all;
    } else {
      var x :| x in off;
      SumSplit(off, x, f);
      SumSplit(all, x, f);
      SumParts(all - {x}, off - {x}, f);
      assert (all - {x}) - (off - {x}) == all - off;
    }
  }

  lemma SumApart(all: set<Tx>, off: set<Tx>, f: Tx -> int)
    requires off <= all && forall x | x in all :: f(x) >= 0
    ensures Sum(all, f) == Sum(off, f) + Sum(all - off, f) && Sum(off, f) >= 0
  {
    SumParts(all, off, f);
    SumMono({}, off, f);
  }
}
