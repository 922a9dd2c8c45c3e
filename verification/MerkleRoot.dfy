/** The Merkle root of a block (src/consensus/merkle.cpp): every row of an odd length has its last hash doubled. */
module MerkleRoot {
  import opened Powers
  import opened MerkleBranch
  import opened MerkleBlock

  /** What the hash at 2 * i is hashed with: its neighbour, or itself at the end of an odd row. */
  function Partner(row: seq<Hash>, i: nat): Hash
    requires 2 * i < |row|
  {
    if 2 * i + 1 < |row| then row[2 * i + 1] else row[2 * i]
  }

  ghost function Above(H: PairHash, row: seq<Hash>): (up: seq<Hash>)
    ensures |up| == (|row| + 1) / 2 && forall i | 0 <= i < |up| :: up[i] == H(row[2 * i], Partner(row, i))
  {
    seq<Hash>((|row| + 1) / 2, i requires 0 <= i < (|row| + 1) / 2 => H(row[2 * i], Partner(row, i)))
  }

  ghost function RootOf(H: PairHash, row: seq<Hash>): Hash
    decreases |row|
  {
    if |row| == 0 then NULL_HASH else if |row| == 1 then row[0] else RootOf(H, Above(H, row))
  }

  /** Two neighbours that are hashed with each other are the same. */
  ghost predicate Twins(row: seq<Hash>) {
    exists i: nat :: 2 * i + 1 < |row| && row[2 * i] == row[2 * i + 1]
  }

  ghost predicate Mutated(H: PairHash, row: seq<Hash>)
    decreases |row|
  {
    |row| > 1 && (Twins(row) || Mutated(H, Above(H, row)))
  }

  /** The pairs hashed for the root. */
  ghost function PairsOf(H: PairHash, row: seq<Hash>): set<(Hash, Hash)>
    decreases |row|
  {
    if |row| <= 1 then {} else
      (set i | 0 <= i < (|row| + 1) / 2 :: (row[2 * i], Partner(row, i))) + PairsOf(H, Above(H, row))
  }

  ghost function Levels(n: nat): nat {
    if n <= 1 then 0 else 1 + Levels((n + 1) / 2)
  }

  // the loop that looks for twins
  method FindTwins(hashes: seq<Hash>) returns (found: bool)
    ensures found <==> Twins(hashes)
  {
    found := false;
    var pos: nat := 0;
    while pos + 1 < |hashes|
      invariant pos % 2 == 0
      invariant found <==> exists i: nat :: 2 * i < pos && 2 * i + 1 < |hashes| && hashes[2 * i] == hashes[2 * i + 1]
    {
      if hashes[pos] == hashes[pos + 1] {
        assert hashes[2 * (pos / 2)] == hashes[2 * (pos / 2) + 1];
        found := true;
      }
      pos := pos + 2;
    }
  }

  // one row hashed into the next
  method HashRow(H: PairHash, row: seq<Hash>) returns (up: seq<Hash>)
    requires |row| > 1
    ensures up == Above(H, row)
  {
    var hashes := row;
    if |hashes| % 2 == 1 {
      hashes := hashes + [hashes[|hashes| - 1]];
    }
    up := [];
    for i := 0 to |hashes| / 2
      invariant |up| == i && forall j | 0 <= j < i :: up[j] == H(row[2 * j], Partner(row, j))
    {
      up := up + [H(hashes[2 * i], hashes[2 * i + 1])];
    }
  }

  // ComputeMerkleRoot
  method ComputeMerkleRoot(H: PairHash, leaves: seq<Hash>) returns (root: Hash, mutated: bool)
    ensures root == RootOf(H, leaves) && (mutated <==> Mutated(H, leaves))
  {
    var hashes, mutation := leaves, false;
    while |hashes| > 1
      invariant RootOf(H, hashes) == RootOf(H, leaves)
      invariant mutation || Mutated(H, hashes) <==> Mutated(H, leaves)
      decreases |hashes|
    {
      var found := FindTwins(hashes);
      mutation := mutation || found;
      hashes := HashRow(H, hashes);
    }
    mutated := mutation;
    root := if |hashes| == 0 then NULL_HASH else hashes[0];
  }

  // ---------- which lists share a root ----------

  lemma SamePairs(H: PairHash, a: seq<Hash>, b: seq<Hash>, i: nat)
    requires |a| > 1 && |b| > 1 && Above(H, a) == Above(H, b) && i < (|a| + 1) / 2
    ensures i < (|b| + 1) / 2
    ensures (a[2 * i] == b[2 * i] && Partner(a, i) == Partner(b, i)) || Collides(H, PairsOf(H, a), PairsOf(H, b))
  {
    assert |Above(H, a)| == |Above(H, b)|;
    assert Above(H, a)[i] == Above(H, b)[i];
    SamePair(H, (a[2 * i], Partner(a, i)), (b[2 * i], Partner(b, i)), PairsOf(H, a), PairsOf(H, b));
  }

  /** The pairs at i are the same. */
  ghost predicate Agree(a: seq<Hash>, b: seq<Hash>, i: nat) {
    2 * i < |a| && 2 * i < |b| && a[2 * i] == b[2 * i] && Partner(a, i) == Partner(b, i)
  }

  /** Of two rows with the same pairs the longer one has twins. */
  lemma LongerHasTwins(a: seq<Hash>, b: seq<Hash>)
    requires 1 < |a| < |b| && (|a| + 1) / 2 == (|b| + 1) / 2 && Agree(a, b, (|a| + 1) / 2 - 1)
    ensures Twins(b)
  {
    var last := (|a| + 1) / 2 - 1;
    assert 2 * last + 1 < |b| && b[2 * last] == b[2 * last + 1];
  }

  lemma SameItems(a: seq<Hash>, b: seq<Hash>)
    requires |a| == |b| && forall i: nat | i < (|a| + 1) / 2 :: Agree(a, b, i)
    ensures a == b
  {
    forall k | 0 <= k < |a| ensures a[k] == b[k] {
      assert Agree(a, b, k / 2);
    }
  }

  /** Rows below one row are the same, unless one of them has twins or pairs collide. */
  lemma SameBelow(H: PairHash, a: seq<Hash>, b: seq<Hash>)
    requires |a| > 1 && |b| > 1 && Above(H, a) == Above(H, b) && !Twins(a) && !Twins(b)
    ensures a == b || Collides(H, PairsOf(H, a), PairsOf(H, b))
  {
    if !Collides(H, PairsOf(H, a), PairsOf(H, b)) {
      assert |Above(H, a)| == |Above(H, b)|;
      forall i: nat | i < (|a| + 1) / 2 ensures Agree(a, b, i) && Agree(b, a, i) {
        SamePairs(H, a, b, i);
      }
      if |a| < |b| {
        LongerHasTwins(a, b);
      } else if |b| < |a| {
        LongerHasTwins(b, a);
      } else {
        SameItems(a, b);
      }
    }
  }

  /** Of the lists whose trees have one height, only one that is not reported as mutated has a given root, unless
      two pairs hashed for these roots collide. */
  lemma {:induction false} RootBinds(H: PairHash, a: seq<Hash>, b: seq<Hash>)
    requires |a| > 0 && |b| > 0 && Levels(|a|) == Levels(|b|) && RootOf(H, a) == RootOf(H, b)
    requires !Mutated(H, a) && !Mutated(H, b)
    ensures a == b || Collides(H, PairsOf(H, a), PairsOf(H, b))
    decreases |a|
  {
    if |a| > 1 {
      RootBinds(H, Above(H, a), Above(H, b));
      CollidesGrows(H, PairsOf(H, Above(H, a)), PairsOf(H, Above(H, b)), PairsOf(H, a), PairsOf(H, b));
      if Above(H, a) == Above(H, b) { SameBelow(H, a, b); }
    }
  }

  /** Repeating the last hash of an odd list is what the report is for: the root stays the same. */
  lemma DoubledSharesRoot(H: PairHash, a: seq<Hash>)
    requires |a| > 1 && |a| % 2 == 1
    ensures RootOf(H, a + [a[|a| - 1]]) == RootOf(H, a) && Mutated(H, a + [a[|a| - 1]])
  {
    var b := a + [a[|a| - 1]];
    assert Above(H, b) == Above(H, a);
    var i := |a| / 2;
    assert 2 * i + 1 < |b| && b[2 * i] == b[2 * i + 1];
  }

  // ---------- the trees of partial Merkle trees ----------

  /** Row h of the tree over some ids. */
  ghost function RowAt(H: PairHash, txids: seq<Hash>, h: nat): (r: seq<Hash>)
    ensures |r| == CalcTreeWidth(|txids|, h)
    ensures forall pos | 0 <= pos < |r| :: InTree(|txids|, h, pos) && r[pos] == CalcHash(H, txids, h, pos)
  {
    var w := CalcTreeWidth(|txids|, h);
    assert forall pos: nat :: pos < w ==> InTree(|txids|, h, pos) by {
      forall pos: nat | pos < w ensures InTree(|txids|, h, pos) { WidthMeaning(|txids|, h, pos); }
    }
    seq(w, pos requires 0 <= pos < w => CalcHash(H, txids, h, pos))
  }

  lemma WidthHalves(n: nat, h: nat)
    ensures CalcTreeWidth(n, h + 1) == (CalcTreeWidth(n, h) + 1) / 2
  {
    var w, v := CalcTreeWidth(n, h), CalcTreeWidth(n, h + 1);
    HalvesAt(n, h, (w + 1) / 2);
    if w > 0 { HalvesAt(n, h, (w + 1) / 2 - 1); }
  }

  lemma HalvesAt(n: nat, h: nat, pos: nat)
    ensures pos < CalcTreeWidth(n, h + 1) <==> 2 * pos < CalcTreeWidth(n, h)
  {
    Children(h + 1, pos);
    WidthMeaning(n, h + 1, pos);
    WidthMeaning(n, h, 2 * pos);
  }

  lemma RowNext(H: PairHash, txids: seq<Hash>, h: nat)
    ensures Above(H, RowAt(H, txids, h)) == RowAt(H, txids, h + 1)
  {
    var row, up := RowAt(H, txids, h), RowAt(H, txids, h + 1);
    WidthHalves(|txids|, h);
    forall i | 0 <= i < |up| ensures up[i] == H(row[2 * i], Partner(row, i)) {
      Children(h + 1, i);
    }
  }

  lemma {:induction false} RootOfRow(H: PairHash, txids: seq<Hash>, h: nat)
    requires forall k | 0 <= k < h :: CalcTreeWidth(|txids|, k) > 1
    ensures RootOf(H, RowAt(H, txids, h)) == RootOf(H, txids)
    decreases h
  {
    if h == 0 {
      assert CalcTreeWidth(|txids|, 0) == |txids| by { assert P2(0) == 1; }
      assert RowAt(H, txids, 0) == txids;
    } else {
      RootOfRow(H, txids, h - 1);
      RowNext(H, txids, h - 1);
    }
  }

  /** The root that partial Merkle trees are checked against is the Merkle root of the block. */
  lemma TreeHasBlockRoot(H: PairHash, txids: seq<Hash>, h: nat)
    requires |txids| > 0 && IsHeight(|txids|, h)
    ensures InTree(|txids|, h, 0) && CalcHash(H, txids, h, 0) == RootOf(H, txids)
  {
    RootOfRow(H, txids, h);
    WidthMeaning(|txids|, h, 0);
    assert First(h, 0) == 0;
    assert |RowAt(H, txids, h)| == 1;
  }
}
