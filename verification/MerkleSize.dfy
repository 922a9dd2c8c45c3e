/** How large a partial Merkle tree is on the wire (src/merkleblock.h): the number of flag bits and
    bytes for any mask, and exactly when the bounds written there hold. */
module MerkleSize {
  import opened MerkleBlock
  import opened MerkleBranch
  import opened Powers
  import NonLinear

  /** The last node of a height. */
  function Last(n: nat, h: nat): nat
    requires n > 0
    ensures First(h, Last(n, h)) < n <= First(h, Last(n, h) + 1)
  {
    WidthMeaning(n, h, 0);
    assert First(h, 0) == 0;
    WidthMeaning(n, h, CalcTreeWidth(n, h) - 1);
    WidthMeaning(n, h, CalcTreeWidth(n, h));
    CalcTreeWidth(n, h) - 1
  }

  /** The last node of height h has one child only, and a match below it. */
  ghost predicate LoneMatch(match_: seq<bool>, h: nat)
    requires h > 0 && match_ != []
  {
    CalcTreeWidth(|match_|, h - 1) % 2 == 1 && AnyMatch(match_, First(h, Last(|match_|, h)), |match_|)
  }

  /** How many heights up to h have such a node. */
  ghost function LoneLevels(match_: seq<bool>, h: nat): (r: nat)
    requires match_ != []
    ensures r <= h
  {
    if h == 0 then 0 else LoneLevels(match_, h - 1) + if LoneMatch(match_, h) then 1 else 0
  }

  /** How many nodes with one child are expanded below a node. */
  ghost function Lone(match_: seq<bool>, h: nat, pos: nat): nat {
    if h == 0 || !ParentOfMatch(match_, h, pos) then 0 else
      Lone(match_, h - 1, 2 * pos) + if HasRight(|match_|, h, pos) then Lone(match_, h - 1, 2 * pos + 1) else 1
  }

  /** A binary tree has one leaf more than it has nodes with two children: bits count all nodes and
      hashes the leaves, so each node with one child costs one bit more. */
  lemma {:induction false} BitCount(H: PairHash, txids: seq<Hash>, match_: seq<bool>, h: nat, pos: nat)
    requires |txids| == |match_| && InTree(|txids|, h, pos)
    ensures |Bits(match_, h, pos)| == 2 * |Hashes(H, txids, match_, h, pos)| - 1 + Lone(match_, h, pos)
    decreases h
  {
    if h > 0 && ParentOfMatch(match_, h, pos) {
      var hr := HashesInner(H, txids, match_, h, pos);
      BitCount(H, txids, match_, h - 1, 2 * pos);
      if HasRight(|txids|, h, pos) {
        BitCount(H, txids, match_, h - 1, 2 * pos + 1);
      }
    }
  }

  /** In a subtree with all its leaves every inner node has two children. */
  lemma {:induction false} FullIsPaired(match_: seq<bool>, h: nat, pos: nat)
    requires First(h, pos + 1) <= |match_|
    ensures Lone(match_, h, pos) == 0
    decreases h
  {
    if h > 0 {
      Children(h, pos);
      Children(h, pos + 1);
      WidthMeaning(|match_|, h - 1, 2 * pos + 1);
      FirstGrows(h - 1, 2 * pos + 1);
      FullIsPaired(match_, h - 1, 2 * pos);
      FullIsPaired(match_, h - 1, 2 * pos + 1);
    }
  }

  /** The width of the height below: the last node has one child or two. */
  lemma WidthBelow(n: nat, h: nat, pos: nat)
    requires h > 0 && First(h, pos) < n <= First(h, pos + 1)
    ensures 2 * pos < CalcTreeWidth(n, h - 1) <= 2 * pos + 2
    ensures First(h - 1, 2 * pos) == First(h, pos)
  {
    Children(h, pos);
    Children(h, pos + 1);
    WidthMeaning(n, h - 1, 2 * pos);
    WidthMeaning(n, h - 1, 2 * pos + 2);
  }

  /** The last node of the height below is the last child of the last node. */
  lemma LastChild(n: nat, h: nat)
    requires n > 0 && h > 0
    ensures Last(n, h - 1) == 2 * Last(n, h) + if HasRight(n, h, Last(n, h)) then 1 else 0
    ensures HasRight(n, h, Last(n, h)) <==> CalcTreeWidth(n, h - 1) % 2 == 0
    ensures First(h, Last(n, h)) <= First(h - 1, Last(n, h - 1))
  {
    var pos := Last(n, h);
    WidthBelow(n, h, pos);
    FirstGrows(h - 1, 2 * pos);
    Parity(pos, CalcTreeWidth(n, h - 1));
  }

  lemma Parity(pos: nat, w: nat)
    requires 2 * pos < w <= 2 * pos + 2
    ensures 2 * pos + 1 < w <==> w % 2 == 0
  {
  }

  lemma {:induction false} NoMatchNoLone(match_: seq<bool>, h: nat)
    requires match_ != [] && !AnyMatch(match_, First(h, Last(|match_|, h)), |match_|)
    ensures LoneLevels(match_, h) == 0
    decreases h
  {
    if h > 0 {
      LastChild(|match_|, h);
      NoMatchNoLone(match_, h - 1);
    }
  }

  /** Expanded nodes with one child are found only at the right edge, one for each height. */
  lemma {:induction false} LoneIsLevels(match_: seq<bool>, h: nat)
    requires match_ != []
    ensures Lone(match_, h, Last(|match_|, h)) == LoneLevels(match_, h)
    decreases h
  {
    var n, pos := |match_|, Last(|match_|, h);
    assert End(n, h, pos) == n;
    if !ParentOfMatch(match_, h, pos) {
      NoMatchNoLone(match_, h);
    } else if h > 0 {
      LastChild(n, h);
      LoneIsLevels(match_, h - 1);
      if HasRight(n, h, pos) {
        FirstBelow(n, h, pos);
        FullIsPaired(match_, h - 1, 2 * pos);
      }
    }
  }

  lemma FirstBelow(n: nat, h: nat, pos: nat)
    requires h > 0 && HasRight(n, h, pos)
    ensures First(h - 1, 2 * pos + 1) < n
  {
    WidthMeaning(n, h - 1, 2 * pos + 1);
  }

  lemma {:induction false} NoLevels(match_: seq<bool>, h: nat)
    requires match_ != []
    ensures LoneLevels(match_, h) == 0 <==> forall g | 1 <= g <= h :: !LoneMatch(match_, g)
    decreases h
  {
    if h > 0 { NoLevels(match_, h - 1); }
  }

  /** The number of flag bits of a whole tree. */
  lemma FlagBits(H: PairHash, txids: seq<Hash>, match_: seq<bool>, h: nat)
    requires |txids| == |match_| > 0 && IsHeight(|txids|, h)
    ensures InTree(|txids|, h, 0)
    ensures |Bits(match_, h, 0)| == 2 * |Hashes(H, txids, match_, h, 0)| - 1 + LoneLevels(match_, h)
  {
    assert First(h, 0) == 0;
    WidthMeaning(|txids|, h, 0);
    BitCount(H, txids, match_, h, 0);
    LoneIsLevels(match_, h);
  }

  /** The bound of 2*N-1 flag bits holds exactly when no height has a last node with one child and a
      match below it. */
  lemma FlagBitBound(H: PairHash, txids: seq<Hash>, match_: seq<bool>, h: nat)
    requires |txids| == |match_| > 0 && IsHeight(|txids|, h)
    ensures InTree(|txids|, h, 0)
    ensures |Bits(match_, h, 0)| <= 2 * |Hashes(H, txids, match_, h, 0)| - 1 <==> forall g | 1 <= g <= h :: !LoneMatch(match_, g)
  {
    FlagBits(H, txids, match_, h);
    NoLevels(match_, h);
  }

  /** It fails for three ids of which the last is matched: four bits for two hashes. */
  lemma FlagBitBoundFails(H: PairHash, txids: seq<Hash>)
    requires |txids| == 3
    ensures IsHeight(3, 2) && InTree(3, 2, 0)
    ensures |Hashes(H, txids, [false, false, true], 2, 0)| == 2 && |Bits([false, false, true], 2, 0)| == 4 > 2 * 2 - 1
  {
    var m := [false, false, true];
    WidthsOfThree();
    LastOfThree(H, txids);
    assert LoneLevels(m, 0) == 0;
    FlagBits(H, txids, m, 2);
  }

  lemma WidthsOfThree()
    ensures CalcTreeWidth(3, 0) == 3 && CalcTreeWidth(3, 1) == 2 && CalcTreeWidth(3, 2) == 1
  {
    assert P2(0) == 1 && P2(1) == 2 && P2(2) == 4;
  }

  lemma LastOfThree(H: PairHash, txids: seq<Hash>)
    requires |txids| == 3
    ensures IsHeight(3, 2) && InTree(3, 2, 0) && |Hashes(H, txids, [false, false, true], 2, 0)| == 2
  {
    var m := [false, false, true];
    WidthsOfThree();
    assert P2(0) == 1 && P2(1) == 2 && P2(2) == 4;
    assert ParentOfMatch(m, 2, 0) && ParentOfMatch(m, 1, 1) by { assert m[2]; }
    assert !ParentOfMatch(m, 1, 0);
    assert |Hashes(H, txids, m, 1, 0)| == 1;
    assert |Hashes(H, txids, m, 1, 1)| == 1;
  }

  // ---------- the number of hashes ----------

  /** How many nodes of a height, from position lo up to hi, have a match below them. */
  ghost function Marked(match_: seq<bool>, g: nat, lo: nat, hi: nat): nat
    decreases hi
  {
    if hi <= lo then 0 else Marked(match_, g, lo, hi - 1) + if ParentOfMatch(match_, g, hi - 1) then 1 else 0
  }

  /** How many inner nodes below a node, itself included, have a match below them. */
  ghost function Expanded(match_: seq<bool>, h: nat, pos: nat): nat {
    if h == 0 then 0 else
      (if ParentOfMatch(match_, h, pos) then 1 else 0) + Expanded(match_, h - 1, 2 * pos) + Expanded(match_, h - 1, 2 * pos + 1)
  }

  lemma ChildOfMatch(match_: seq<bool>, h: nat, pos: nat)
    requires h > 0 && !ParentOfMatch(match_, h, pos)
    ensures !ParentOfMatch(match_, h - 1, 2 * pos) && !ParentOfMatch(match_, h - 1, 2 * pos + 1)
  {
    Children(h, pos);
    Children(h, pos + 1);
    FirstGrows(h - 1, 2 * pos);
    FirstGrows(h - 1, 2 * pos + 1);
  }

  lemma {:induction false} NothingExpanded(match_: seq<bool>, h: nat, pos: nat)
    requires !ParentOfMatch(match_, h, pos)
    ensures Expanded(match_, h, pos) == 0
    decreases h
  {
    if h > 0 {
      ChildOfMatch(match_, h, pos);
      NothingExpanded(match_, h - 1, 2 * pos);
      NothingExpanded(match_, h - 1, 2 * pos + 1);
    }
  }

  /** The stored hashes are the leaves of a tree whose inner nodes are the expanded ones. */
  lemma {:induction false} HashesByNodes(H: PairHash, txids: seq<Hash>, match_: seq<bool>, h: nat, pos: nat)
    requires |txids| == |match_| && InTree(|txids|, h, pos)
    ensures |Hashes(H, txids, match_, h, pos)| == 1 + Expanded(match_, h, pos) - Lone(match_, h, pos)
    decreases h
  {
    if h > 0 && ParentOfMatch(match_, h, pos) {
      var hr := HashesInner(H, txids, match_, h, pos);
      HashesByNodes(H, txids, match_, h - 1, 2 * pos);
      if HasRight(|txids|, h, pos) {
        HashesByNodes(H, txids, match_, h - 1, 2 * pos + 1);
      } else {
        WidthMeaning(|txids|, h - 1, 2 * pos + 1);
        NothingExpanded(match_, h - 1, 2 * pos + 1);
      }
    } else if h > 0 {
      NothingExpanded(match_, h, pos);
    }
  }

  lemma {:induction false} MarkedSplit(match_: seq<bool>, g: nat, lo: nat, mid: nat, hi: nat)
    requires lo <= mid <= hi
    ensures Marked(match_, g, lo, hi) == Marked(match_, g, lo, mid) + Marked(match_, g, mid, hi)
    decreases hi
  {
    if mid < hi { MarkedSplit(match_, g, lo, mid, hi - 1); }
  }

  /** The nodes with a match at the heights 1 to g, g at most h, below a node of height h. */
  ghost function Rows(match_: seq<bool>, h: nat, pos: nat, g: nat): nat
    requires g <= h
  {
    if g == 0 then 0 else Rows(match_, h, pos, g - 1) + Marked(match_, g, pos * P2(h - g), (pos + 1) * P2(h - g))
  }

  lemma {:induction false} RowsSplit(match_: seq<bool>, h: nat, pos: nat, g: nat)
    requires g < h
    ensures Rows(match_, h, pos, g) == Rows(match_, h - 1, 2 * pos, g) + Rows(match_, h - 1, 2 * pos + 1, g)
    decreases g
  {
    if g > 0 {
      RowsSplit(match_, h, pos, g - 1);
      var p := P2(h - 1 - g);
      assert P2(h - g) == 2 * p;
      Doubled(pos, p);
      MarkedSplit(match_, g, 2 * pos * p, (2 * pos + 1) * p, (2 * pos + 2) * p);
    }
  }

  lemma Doubled(pos: nat, p: nat)
    ensures pos * (2 * p) == 2 * pos * p && (pos + 1) * (2 * p) == (2 * pos + 2) * p
    ensures 2 * pos * p <= (2 * pos + 1) * p <= (2 * pos + 2) * p
  {
    NonLinear.MulAssoc(pos, 2, p);
    NonLinear.MulMono(p, 2 * pos, 2 * pos + 1);
    NonLinear.MulMono(p, 2 * pos + 1, 2 * pos + 2);
  }

  /** Counting the expanded nodes row by row. */
  lemma {:induction false} ExpandedByRows(match_: seq<bool>, h: nat, pos: nat)
    ensures Expanded(match_, h, pos) == Rows(match_, h, pos, h)
    decreases h
  {
    if h > 0 {
      ExpandedByRows(match_, h - 1, 2 * pos);
      ExpandedByRows(match_, h - 1, 2 * pos + 1);
      RowsSplit(match_, h, pos, h - 1);
      assert P2(0) == 1 && pos * P2(0) == pos;
      assert Marked(match_, h, pos, pos) == 0;
    }
  }

  /** How many nodes of a height have a match below them. */
  ghost function MarkedNodes(match_: seq<bool>, g: nat): nat {
    Marked(match_, g, 0, CalcTreeWidth(|match_|, g))
  }

  ghost function MarkedUpTo(match_: seq<bool>, h: nat): nat {
    if h == 0 then 0 else MarkedUpTo(match_, h - 1) + MarkedNodes(match_, h)
  }

  /** The number of hashes stored for a mask: the nodes with a match at all heights, less those with one child,
      and one. */
  ghost function Stored(match_: seq<bool>, h: nat): int
    requires match_ != []
  {
    1 + MarkedUpTo(match_, h) - LoneLevels(match_, h)
  }

  lemma {:induction false} NoneBeyond(match_: seq<bool>, g: nat, lo: nat, hi: nat)
    requires CalcTreeWidth(|match_|, g) <= lo
    ensures Marked(match_, g, lo, hi) == 0
    decreases hi
  {
    if lo < hi {
      NoneBeyond(match_, g, lo, hi - 1);
      WidthMeaning(|match_|, g, hi - 1);
    }
  }

  lemma RowIsNodes(match_: seq<bool>, h: nat, g: nat)
    requires g <= h && CalcTreeWidth(|match_|, h) <= 1
    ensures Marked(match_, g, 0, P2(h - g)) == MarkedNodes(match_, g)
  {
    var w := CalcTreeWidth(|match_|, g);
    WidthsShrink(|match_|, h, g);
    MarkedSplit(match_, g, 0, w, P2(h - g));
    NoneBeyond(match_, g, w, P2(h - g));
  }

  lemma WidthsShrink(n: nat, h: nat, g: nat)
    requires g <= h && CalcTreeWidth(n, h) <= 1
    ensures CalcTreeWidth(n, g) <= P2(h - g)
  {
    WidthMeaning(n, h, 1);
    P2Add(h - g, g);
    WidthMeaning(n, g, P2(h - g));
  }

  lemma {:induction false} RowsAreNodes(match_: seq<bool>, h: nat, g: nat)
    requires g <= h && CalcTreeWidth(|match_|, h) <= 1
    ensures Rows(match_, h, 0, g) == MarkedUpTo(match_, g)
    decreases g
  {
    if g > 0 {
      RowsAreNodes(match_, h, g - 1);
      RowIsNodes(match_, h, g);
      assert 0 * P2(h - g) == 0 && (0 + 1) * P2(h - g) == P2(h - g);
    }
  }

  /** The number of hashes of a whole tree, from the mask alone. */
  lemma StoredHashes(H: PairHash, txids: seq<Hash>, match_: seq<bool>, h: nat)
    requires |txids| == |match_| > 0 && IsHeight(|txids|, h)
    ensures InTree(|txids|, h, 0) && |Hashes(H, txids, match_, h, 0)| == Stored(match_, h)
  {
    assert First(h, 0) == 0;
    WidthMeaning(|txids|, h, 0);
    HashesByNodes(H, txids, match_, h, 0);
    ExpandedByRows(match_, h, 0);
    RowsAreNodes(match_, h, h);
    LoneIsLevels(match_, h);
  }

  // ---------- the size in bytes ----------

  /** The length of a variable-length count (src/serialize.h). */
  function CompactSize(n: nat): nat {
    if n < 253 then 1 else if n <= 0xffff then 3 else if n <= 0xffff_ffff then 5 else 9
  }

  /** The count of transactions, the hashes and the flag bytes, the latter two with their counts. */
  function WireSize(hashes: nat, bits: nat): nat {
    4 + CompactSize(hashes) + 32 * hashes + CompactSize((bits + 7) / 8) + (bits + 7) / 8
  }

  /** 10 + ceil(32.25 * N). */
  function SizeGuarantee(n: nat): nat {
    10 + 32 * n + (n + 3) / 4
  }

  /** The guarantee in terms of the hashes and the extra bits: it holds as long as the flag bytes are
      fewer than 253, and beyond that when the extra bits still fit into the last byte. */
  predicate SizeOk(hashes: nat, extra: nat) {
    2 * hashes + 6 + extra < 8 * 253 || (2 * hashes + 6) % 8 + extra < 8
  }

  lemma SizeArithmetic(n: nat, extra: nat)
    requires 1 <= n <= 0xffff && extra <= 15
    ensures WireSize(n, 2 * n - 1 + extra) <= SizeGuarantee(n) <==> SizeOk(n, extra)
  {
    var k, r := (2 * n + 6) / 8, (2 * n + 6) % 8;
    assert k == (n + 3) / 4 && r <= 6;
    var bytes := (2 * n + 6 + extra) / 8;
    assert bytes == k + (r + extra) / 8 <= k + 2;
  }

  /** No tree within the size limit is higher than 15. */
  lemma HeightLimit(n: nat, h: nat)
    requires n <= MAX_BLOCK_WEIGHT / MIN_TRANSACTION_WEIGHT && IsHeight(n, h)
    ensures h <= 15
  {
    assert P2(5) == 32;
    P2Add(5, 5);
    P2Add(10, 5);
    WidthMeaning(n, 15, 1);
  }

  lemma HashLimit(H: PairHash, txids: seq<Hash>, match_: seq<bool>, h: nat)
    requires |txids| == |match_| && InTree(|txids|, h, 0)
    ensures 1 <= |Hashes(H, txids, match_, h, 0)| <= |txids|
  {
    HashCount(H, txids, match_, h, 0);
    SomeHash(H, txids, match_, h, 0);
  }

  lemma {:induction false} SomeHash(H: PairHash, txids: seq<Hash>, match_: seq<bool>, h: nat, pos: nat)
    requires |txids| == |match_| && InTree(|txids|, h, pos)
    ensures Hashes(H, txids, match_, h, pos) != []
    decreases h
  {
    if h > 0 && ParentOfMatch(match_, h, pos) {
      var hr := HashesInner(H, txids, match_, h, pos);
      SomeHash(H, txids, match_, h - 1, 2 * pos);
    }
  }

  /** The guaranteed size holds exactly when the extra bits, one for each height whose last node has
      one child and a match below it, do not cost a byte that the counts leave no room for.  Both the extra
      bits and the hashes are counted from the mask. */
  lemma SizeBound(H: PairHash, txids: seq<Hash>, match_: seq<bool>, h: nat)
    requires |txids| == |match_| && 0 < |txids| <= MAX_BLOCK_WEIGHT / MIN_TRANSACTION_WEIGHT && IsHeight(|txids|, h)
    ensures InTree(|txids|, h, 0)
    ensures Stored(match_, h) >= 1
    ensures var n := |Hashes(H, txids, match_, h, 0)|;
            WireSize(n, |Bits(match_, h, 0)|) <= SizeGuarantee(n) <==> SizeOk(Stored(match_, h), LoneLevels(match_, h))
  {
    StoredHashes(H, txids, match_, h);
    FlagBits(H, txids, match_, h);
    HeightLimit(|txids|, h);
    HashLimit(H, txids, match_, h);
    SizeArithmetic(|Hashes(H, txids, match_, h, 0)|, LoneLevels(match_, h));
  }

  /** With every id matched, every id is stored. */
  lemma {:induction false} AllStored(H: PairHash, txids: seq<Hash>, match_: seq<bool>, h: nat, pos: nat)
    requires |txids| == |match_| && InTree(|txids|, h, pos) && forall p | 0 <= p < |match_| :: match_[p]
    ensures |Hashes(H, txids, match_, h, pos)| == End(|txids|, h, pos) - First(h, pos)
    decreases h
  {
    if h == 0 {
      LeafMatched(match_, pos);
    } else {
      Halves(|txids|, h, pos);
      assert match_[First(h, pos)];
      var hr := HashesInner(H, txids, match_, h, pos);
      AllStored(H, txids, match_, h - 1, 2 * pos);
      if HasRight(|txids|, h, pos) {
        AllStored(H, txids, match_, h - 1, 2 * pos + 1);
      } else {
        assert hr == [];
      }
    }
  }

  /** The widths of a tree over 1025 ids. */
  lemma Widths()
    ensures forall h | 0 <= h <= 10 :: CalcTreeWidth(1025, h) == P2(10 - h) + 1
    ensures CalcTreeWidth(1025, 11) == 1
  {
    forall h | 0 <= h <= 10 ensures CalcTreeWidth(1025, h) == P2(10 - h) + 1 {
      P2Add(h, 10 - h);
      assert P2(5) == 32;
      P2Add(5, 5);
      var p, q := P2(h), P2(10 - h);
      NonLinear.DivModRev(1025 + p - 1, p, q + 1, 0);
    }
    P2Add(10, 1);
    assert P2(1) == 2;
  }

  /** All but the top one of its heights have a last node with one child. */
  lemma {:induction false} EdgeOf1025(match_: seq<bool>, h: nat)
    requires |match_| == 1025 && (forall p | 0 <= p < |match_| :: match_[p]) && h <= 10
    ensures LoneLevels(match_, h) == h
    decreases h
  {
    if h > 0 {
      EdgeOf1025(match_, h - 1);
      Widths();
      assert P2(11 - h) == 2 * P2(10 - h);
      assert match_[First(h, Last(1025, h))];
    }
  }

  /** The guarantee fails for 1025 ids that are all matched: 33068 bytes against 33067. */
  lemma SizeBoundFails(H: PairHash, txids: seq<Hash>, match_: seq<bool>)
    requires |txids| == |match_| == 1025 && forall p | 0 <= p < |match_| :: match_[p]
    ensures IsHeight(1025, 11) && InTree(1025, 11, 0)
    ensures var n := |Hashes(H, txids, match_, 11, 0)|;
            n == 1025 && WireSize(n, |Bits(match_, 11, 0)|) == 33068 && SizeGuarantee(n) == 33067
  {
    Widths();
    EdgeOf1025(match_, 10);
    assert P2(0) == 1;
    assert !LoneMatch(match_, 11);
    assert First(11, 0) == 0;
    FlagBits(H, txids, match_, 11);
    WidthMeaning(1025, 11, 1);
    AllStored(H, txids, match_, 11, 0);
  }
}
