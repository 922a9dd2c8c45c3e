/** The order in which transactions are considered for a block (src/txmempool.h,
    CompareTxMemPoolEntryByAncestorFee).  Transactions are numbered in the order of their hashes. */
module AncestorScore {
  /** A transaction with its own fee and size, and those of it with its ancestors. */
  datatype Entry = Entry(tx: nat, fee: int, size: int, allFees: int, allSize: int)

  datatype Rate = Rate(fee: int, size: int)

  // GetModFeeAndSize
  function Picked(e: Entry): Rate {
    if e.fee * e.allSize > e.allFees * e.size then Rate(e.allFees, e.allSize) else Rate(e.fee, e.size)
  }

  // the comparison, without the rounding of floating point
  predicate Better(a: Entry, b: Entry) {
    var x, y := Picked(a), Picked(b);
    if x.fee * y.size == x.size * y.fee then a.tx < b.tx else x.fee * y.size > x.size * y.fee
  }

  /** The rate is a number or infinite; no size and no fee, or a negative one, is neither. */
  ghost predicate IsRate(r: Rate) {
    r.size > 0 || (r.size == 0 && r.fee > 0)
  }

  /** With a size or a fee of its own, a transaction has a rate whatever its ancestors are. */
  ghost predicate Scored(e: Entry) {
    0 <= e.size <= e.allSize && (e.size > 0 || e.fee > 0)
  }

  lemma NonNegative(a: int, b: int)
    requires a >= 0 && b >= 0
    ensures a * b >= 0
  {
  }

  lemma Positive(a: int, b: int)
    requires a > 0 && b > 0
    ensures a * b > 0
  {
  }

  lemma Cancel(a: int, b: int)
    requires a > 0 && a * b >= 0
    ensures b >= 0
  {
    if b < 0 { Positive(a, -b); }
  }

  lemma ScoredHasRate(e: Entry)
    requires Scored(e)
    ensures IsRate(Picked(e))
  {
    if e.size == 0 && e.allSize > 0 { Positive(e.fee, e.allSize); }
  }

  /** Fee per size, as a number. */
  ghost function PerSize(fee: int, size: int): real
    requires size > 0
  {
    fee as real / size as real
  }

  /** The rate of the transaction alone or with its ancestors, whichever is lower. */
  ghost function LowerRate(e: Entry): real
    requires e.size > 0 && e.allSize > 0
  {
    if PerSize(e.fee, e.size) < PerSize(e.allFees, e.allSize) then PerSize(e.fee, e.size) else PerSize(e.allFees, e.allSize)
  }

  lemma CrossMultiply(a: int, b: int, c: int, d: int)
    requires b > 0 && d > 0
    ensures a * d > c * b <==> PerSize(a, b) > PerSize(c, d)
    ensures a * d == c * b <==> PerSize(a, b) == PerSize(c, d)
  {
    var x, y, p, q := PerSize(a, b), PerSize(c, d), b as real, d as real;
    assert x * p == a as real && y * q == c as real;
    assert (a * d) as real == (x * p) * q && (c * b) as real == (y * q) * p;
    Scale(x, y, p, q);
  }

  lemma Scale(x: real, y: real, p: real, q: real)
    requires p > 0.0 && q > 0.0
    ensures (x * p) * q > (y * q) * p <==> x > y
    ensures (x * p) * q == (y * q) * p <==> x == y
  {
    var r := p * q;
    assert r > 0.0 && (x * p) * q == x * r && (y * q) * p == y * r;
    if x > y {
      assert (x - y) * r > 0.0;
    } else if x < y {
      assert (y - x) * r > 0.0;
    }
  }

  lemma PickedRate(e: Entry)
    requires e.size > 0 && e.allSize > 0
    ensures Picked(e).size > 0 && PerSize(Picked(e).fee, Picked(e).size) == LowerRate(e)
  {
    CrossMultiply(e.fee, e.size, e.allFees, e.allSize);
  }

  /** A transaction is considered before another if its lower rate is higher, or the same and its hash is
      smaller. */
  lemma BetterByRate(a: Entry, b: Entry)
    requires a.size > 0 && a.allSize > 0 && b.size > 0 && b.allSize > 0
    ensures Better(a, b) <==> LowerRate(a) > LowerRate(b) || (LowerRate(a) == LowerRate(b) && a.tx < b.tx)
  {
    var x, y := Picked(a), Picked(b);
    PickedRate(a);
    PickedRate(b);
    CrossMultiply(x.fee, x.size, y.fee, y.size);
  }

  /** The lower of the two rates is picked. */
  lemma PickedIsLower(e: Entry)
    ensures Picked(e).fee * e.size <= e.fee * Picked(e).size
    ensures Picked(e).fee * e.allSize <= e.allFees * Picked(e).size
  {
  }

  /** By how much the rate x exceeds y, up to a positive factor. */
  function Lead(x: Rate, y: Rate): int {
    x.fee * y.size - x.size * y.fee
  }

  lemma LeadsAdd(x: Rate, y: Rate, z: Rate)
    ensures y.size * Lead(x, z) == z.size * Lead(x, y) + x.size * Lead(y, z)
  {
    Spread(y.size, x.fee * z.size, x.size * z.fee);
    Spread(z.size, x.fee * y.size, x.size * y.fee);
    Spread(x.size, y.fee * z.size, y.size * z.fee);
    Turn(y.size, x.fee, z.size);
    Turn(y.size, x.size, z.fee);
    Turn(z.size, x.fee, y.size);
    Turn(z.size, x.size, y.fee);
    Turn(x.size, y.fee, z.size);
    Turn(x.size, y.size, z.fee);
  }

  lemma Spread(a: int, b: int, c: int)
    ensures a * (b - c) == a * b - a * c
  {
  }

  lemma Turn(a: int, b: int, c: int)
    ensures a * (b * c) == a * b * c == b * a * c == c * a * b
  {
  }

  lemma LeadTrans(x: Rate, y: Rate, z: Rate)
    requires IsRate(x) && IsRate(y) && IsRate(z) && Lead(x, y) >= 0 && Lead(y, z) >= 0
    ensures Lead(x, z) >= 0
  {
    if y.size > 0 {
      LeadsAdd(x, y, z);
      NonNegative(z.size, Lead(x, y));
      NonNegative(x.size, Lead(y, z));
      Cancel(y.size, Lead(x, z));
    } else {
      if x.size > 0 { Positive(x.size, y.fee); }
      NonNegative(x.fee, z.size);
    }
  }

  /** Rates below a rate are below what is above it. */
  lemma LeadStrict(x: Rate, y: Rate, z: Rate)
    requires x.size > 0 && y.size > 0 && z.size > 0 && Lead(x, y) > 0 && Lead(y, z) >= 0
    ensures Lead(x, z) > 0
  {
    LeadsAdd(x, y, z);
    Positive(z.size, Lead(x, y));
    NonNegative(x.size, Lead(y, z));
    CancelStrict(y.size, Lead(x, z));
  }

  lemma CancelStrict(a: int, b: int)
    requires a > 0 && a * b > 0
    ensures b > 0
  {
    if b <= 0 { NonNegative(a, -b); }
  }

  lemma LeadBack(x: Rate, y: Rate)
    ensures Lead(y, x) == -Lead(x, y)
  {
  }

  lemma BetterByLead(a: Entry, b: Entry)
    ensures Better(a, b) <==> Lead(Picked(a), Picked(b)) > 0 || (Lead(Picked(a), Picked(b)) == 0 && a.tx < b.tx)
  {
  }

  /** On entries with rates the comparison is a strict order, */
  lemma BetterTrans(a: Entry, b: Entry, c: Entry)
    requires IsRate(Picked(a)) && IsRate(Picked(b)) && IsRate(Picked(c)) && Better(a, b) && Better(b, c)
    ensures Better(a, c)
  {
    var x, y, z := Picked(a), Picked(b), Picked(c);
    BetterByLead(a, b);
    BetterByLead(b, c);
    BetterByLead(a, c);
    LeadTrans(x, y, z);
    LeadBack(x, y);
    LeadBack(y, z);
    LeadBack(x, z);
    if Lead(x, z) == 0 {
      LeadTrans(z, x, y);
      LeadTrans(y, z, x);
    }
  }

  /** and one of any two different transactions is better. */
  lemma BetterTotal(a: Entry, b: Entry)
    requires a.tx != b.tx
    ensures Better(a, b) <==> !Better(b, a)
  {
    BetterByLead(a, b);
    BetterByLead(b, a);
    LeadBack(Picked(a), Picked(b));
  }

  /** Any transaction without a rate stands in a circle with two that have one. */
  lemma NoRateNoOrder(a: Entry) returns (b: Entry, c: Entry)
    requires Picked(a).size == 0 && Picked(a).fee <= 0 && a.tx > 0
    ensures IsRate(Picked(b)) && IsRate(Picked(c)) && Better(c, b) && Better(b, a) && Better(a, c)
  {
    c := if Picked(a).fee == 0 then Entry(a.tx + 1, 2, 1, 2, 1) else Entry(a.tx + 1, 1, 0, 1, 0);
    b := Entry(a.tx - 1, 1, 1, 1, 1);
  }
}
