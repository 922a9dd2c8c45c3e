/** Partial Merkle trees (src/merkleblock.cpp, src/merkleblock.h; BIP 37, section "Partial
    Merkle branch format").  The pair hash is an arbitrary function `H`: results that rest on
    it name the pairs of which no two may collide. */
module MerkleBlock {
  import NonLinear
  import opened BitOps
  import opened MerkleBranch
  import opened Powers

  type Hash = nat
  type PairHash = (Hash, Hash) -> Hash

  const NULL_HASH: Hash := 0
  const MAX_BLOCK_WEIGHT := 4000000
  const MIN_TRANSACTION_WEIGHT := 240

  function CalcTreeWidth(n: nat, h: nat): nat {
    (n + P2(h) - 1) / P2(h)
  }

  /** The first leaf below a node. */
  function First(h: nat, pos: nat): nat {
    pos * P2(h)
  }

  lemma Children(h: nat, pos: nat)
    requires h > 0
    ensures First(h - 1, 2 * pos) == First(h, pos)
    ensures First(h - 1, 2 * pos + 1) == First(h, pos) + P2(h - 1)
    ensures First(h, pos) + P2(h) == First(h, pos + 1)
    ensures First(h - 1, 2 * pos + 1) + P2(h - 1) == First(h, pos + 1)
  {
    var x := P2(h - 1);
    assert (2 * pos) * x == pos * (2 * x);
    assert (2 * pos + 1) * x == pos * (2 * x) + x;
    assert (pos + 1) * (2 * x) == pos * (2 * x) + 2 * x;
  }

  /** A position is within the tree exactly when its first leaf is. */
  lemma WidthMeaning(n: nat, h: nat, pos: nat)
    ensures pos < CalcTreeWidth(n, h) <==> First(h, pos) < n
  {
    var p, q := P2(h), CalcTreeWidth(n, h);
    assert n + p - 1 == p * q + (n + p - 1) % p;
    if pos < q {
      NonLinear.MulMono(p, pos + 1, q);
      assert p * (pos + 1) == pos * p + p;
    } else {
      NonLinear.MulMono(p, q, pos);
    }
  }

  ghost predicate InTree(n: nat, h: nat, pos: nat) {
    First(h, pos) < n
  }

  function CalcHash(H: PairHash, txids: seq<Hash>, h: nat, pos: nat): Hash
    requires InTree(|txids|, h, pos)
  {
    if h == 0 then txids[pos] else
      Children(h, pos);
      WidthMeaning(|txids|, h - 1, 2 * pos + 1);
      var left := CalcHash(H, txids, h - 1, 2 * pos);
      var right := if 2 * pos + 1 < CalcTreeWidth(|txids|, h - 1) then CalcHash(H, txids, h - 1, 2 * pos + 1) else left;
      H(left, right)
  }

  /** The pairs hashed for a node. */
  ghost function TreePairs(H: PairHash, txids: seq<Hash>, h: nat, pos: nat): set<(Hash, Hash)>
    requires InTree(|txids|, h, pos)
  {
    if h == 0 then {} else
      Children(h, pos);
      WidthMeaning(|txids|, h - 1, 2 * pos + 1);
      var left := CalcHash(H, txids, h - 1, 2 * pos);
      if 2 * pos + 1 < CalcTreeWidth(|txids|, h - 1) then
        {(left, CalcHash(H, txids, h - 1, 2 * pos + 1))} + TreePairs(H, txids, h - 1, 2 * pos) + TreePairs(H, txids, h - 1, 2 * pos + 1)
      else
        {(left, left)} + TreePairs(H, txids, h - 1, 2 * pos)
  }

  /** The leaves below a node end before this one. */
  function End(n: nat, h: nat, pos: nat): nat {
    if First(h, pos + 1) < n then First(h, pos + 1) else n
  }

  // ---------- the encoding ----------

  ghost predicate AnyMatch(match_: seq<bool>, lo: nat, hi: nat)
    requires hi <= |match_|
  {
    exists p | lo <= p < hi :: match_[p]
  }

  ghost predicate ParentOfMatch(match_: seq<bool>, h: nat, pos: nat) {
    AnyMatch(match_, First(h, pos), End(|match_|, h, pos))
  }

  /** The flag bits stored for a subtree. */
  ghost function Bits(match_: seq<bool>, h: nat, pos: nat): seq<bool> {
    [ParentOfMatch(match_, h, pos)] +
    if h == 0 || !ParentOfMatch(match_, h, pos) then [] else
      Bits(match_, h - 1, 2 * pos) +
      if 2 * pos + 1 < CalcTreeWidth(|match_|, h - 1) then Bits(match_, h - 1, 2 * pos + 1) else []
  }

  /** The hashes stored for a subtree. */
  ghost function Hashes(H: PairHash, txids: seq<Hash>, match_: seq<bool>, h: nat, pos: nat): seq<Hash>
    requires |txids| == |match_| && InTree(|txids|, h, pos)
  {
    if h == 0 || !ParentOfMatch(match_, h, pos) then [CalcHash(H, txids, h, pos)] else
      Children(h, pos);
      WidthMeaning(|txids|, h - 1, 2 * pos + 1);
      Hashes(H, txids, match_, h - 1, 2 * pos) +
      if 2 * pos + 1 < CalcTreeWidth(|match_|, h - 1) then Hashes(H, txids, match_, h - 1, 2 * pos + 1) else []
  }

  // ---------- the decoding ----------

  /** The outcome of reading a subtree: bits and hashes used so far, whether something was
      wrong, the matched leaves and their positions, and the hash of the subtree. */
  datatype Walk = Walk(bitsUsed: nat, hashUsed: nat, bad: bool, matches: seq<Hash>, indices: seq<nat>, hash: Hash)

  function Extract(H: PairHash, n: nat, bits: seq<bool>, hashes: seq<Hash>, h: nat, pos: nat, bitsUsed: nat, hashUsed: nat, bad: bool): Walk
    decreases h
  {
    if bitsUsed >= |bits| then Walk(bitsUsed, hashUsed, true, [], [], NULL_HASH)
    else if h == 0 || !bits[bitsUsed] then
      if hashUsed >= |hashes| then Walk(bitsUsed + 1, hashUsed, true, [], [], NULL_HASH)
      else if h == 0 && bits[bitsUsed] then Walk(bitsUsed + 1, hashUsed + 1, bad, [hashes[hashUsed]], [pos], hashes[hashUsed])
      else Walk(bitsUsed + 1, hashUsed + 1, bad, [], [], hashes[hashUsed])
    else
      var l := Extract(H, n, bits, hashes, h - 1, 2 * pos, bitsUsed + 1, hashUsed, bad);
      if 2 * pos + 1 < CalcTreeWidth(n, h - 1) then
        var r := Extract(H, n, bits, hashes, h - 1, 2 * pos + 1, l.bitsUsed, l.hashUsed, l.bad);
        Walk(r.bitsUsed, r.hashUsed, r.bad || r.hash == l.hash, l.matches + r.matches, l.indices + r.indices, H(l.hash, r.hash))
      else
        l.(hash := H(l.hash, l.hash))
  }

  /** The pairs hashed while a subtree is read. */
  ghost function WalkPairs(H: PairHash, n: nat, bits: seq<bool>, hashes: seq<Hash>, h: nat, pos: nat, bu: nat, hu: nat, bad: bool): set<(Hash, Hash)>
    decreases h
  {
    if bu >= |bits| || h == 0 || !bits[bu] then {} else
      var l := Extract(H, n, bits, hashes, h - 1, 2 * pos, bu + 1, hu, bad);
      if 2 * pos + 1 < CalcTreeWidth(n, h - 1) then
        {(l.hash, Extract(H, n, bits, hashes, h - 1, 2 * pos + 1, l.bitsUsed, l.hashUsed, l.bad).hash)}
        + WalkPairs(H, n, bits, hashes, h - 1, 2 * pos, bu + 1, hu, bad)
        + WalkPairs(H, n, bits, hashes, h - 1, 2 * pos + 1, l.bitsUsed, l.hashUsed, l.bad)
      else
        {(l.hash, l.hash)} + WalkPairs(H, n, bits, hashes, h - 1, 2 * pos, bu + 1, hu, bad)
  }

  /** Errors are never forgotten. */
  lemma {:induction false} BadStays(H: PairHash, n: nat, bits: seq<bool>, hashes: seq<Hash>, h: nat, pos: nat, bu: nat, hu: nat, bad: bool)
    ensures bad ==> Extract(H, n, bits, hashes, h, pos, bu, hu, bad).bad
    decreases h
  {
    if bu < |bits| && h > 0 && bits[bu] {
      BadStays(H, n, bits, hashes, h - 1, 2 * pos, bu + 1, hu, bad);
      var l := Extract(H, n, bits, hashes, h - 1, 2 * pos, bu + 1, hu, bad);
      BadStays(H, n, bits, hashes, h - 1, 2 * pos + 1, l.bitsUsed, l.hashUsed, l.bad);
    }
  }

  ghost predicate Genuine(txids: seq<Hash>, w: Walk) {
    |w.matches| == |w.indices| &&
    forall k | 0 <= k < |w.matches| :: w.indices[k] < |txids| && txids[w.indices[k]] == w.matches[k]
  }

  /** A subtree reads without error and hashes to the true value; the pairs hashed while reading
      are among `s` and those of the true subtree among `t`. */
  ghost predicate ReadsTrue(H: PairHash, txids: seq<Hash>, bits: seq<bool>, hashes: seq<Hash>, h: nat, pos: nat, bu: nat, hu: nat, bad: bool,
                            s: set<(Hash, Hash)>, t: set<(Hash, Hash)>)
  {
    && InTree(|txids|, h, pos)
    && WalkPairs(H, |txids|, bits, hashes, h, pos, bu, hu, bad) <= s && TreePairs(H, txids, h, pos) <= t
    && var w := Extract(H, |txids|, bits, hashes, h, pos, bu, hu, bad); !w.bad && w.hash == CalcHash(H, txids, h, pos)
  }

  /** Authentication: whatever the bits and hashes are, a subtree that reads without error and
      hashes to the true value contains only genuine matches, if no pair hashed while reading
      collides with one of the tree. */
  lemma {:induction false} SubtreeIsGenuine(H: PairHash, txids: seq<Hash>, bits: seq<bool>, hashes: seq<Hash>, h: nat, pos: nat, bu: nat, hu: nat, bad: bool,
                                            s: set<(Hash, Hash)>, t: set<(Hash, Hash)>)
    requires ReadsTrue(H, txids, bits, hashes, h, pos, bu, hu, bad, s, t) && !Collides(H, s, t)
    ensures Genuine(txids, Extract(H, |txids|, bits, hashes, h, pos, bu, hu, bad))
    decreases h
  {
    if bu < |bits| && h > 0 && bits[bu] {
      var l, r := HashSplits(H, txids, bits, hashes, h, pos, bu, hu, bad, s, t);
      SubtreeIsGenuine(H, txids, bits, hashes, h - 1, 2 * pos, bu + 1, hu, bad, s, t);
      if HasRight(|txids|, h, pos) {
        SubtreeIsGenuine(H, txids, bits, hashes, h - 1, 2 * pos + 1, l.bitsUsed, l.hashUsed, l.bad, s, t);
        GenuineConcat(txids, l, r, Inner(H, true, l, r));
      }
    } else {
      LeafIsGenuine(H, txids, bits, hashes, h, pos, bu, hu, bad);
    }
  }

  lemma LeafIsGenuine(H: PairHash, txids: seq<Hash>, bits: seq<bool>, hashes: seq<Hash>, h: nat, pos: nat, bu: nat, hu: nat, bad: bool)
    requires InTree(|txids|, h, pos) && !(bu < |bits| && h > 0 && bits[bu])
    requires var w := Extract(H, |txids|, bits, hashes, h, pos, bu, hu, bad); !w.bad && w.hash == CalcHash(H, txids, h, pos)
    ensures Genuine(txids, Extract(H, |txids|, bits, hashes, h, pos, bu, hu, bad))
  {
  }

  /** What is read of the children of an inner node, and the pairs hashed for it. */
  lemma WalkParts(H: PairHash, n: nat, bits: seq<bool>, hashes: seq<Hash>, h: nat, pos: nat, bu: nat, hu: nat, bad: bool)
    returns (l: Walk, r: Walk, sl: set<(Hash, Hash)>, sr: set<(Hash, Hash)>)
    requires bu < |bits| && h > 0 && bits[bu]
    ensures l == Extract(H, n, bits, hashes, h - 1, 2 * pos, bu + 1, hu, bad)
    ensures sl == WalkPairs(H, n, bits, hashes, h - 1, 2 * pos, bu + 1, hu, bad)
    ensures if HasRight(n, h, pos)
            then && r == Extract(H, n, bits, hashes, h - 1, 2 * pos + 1, l.bitsUsed, l.hashUsed, l.bad)
                 && sr == WalkPairs(H, n, bits, hashes, h - 1, 2 * pos + 1, l.bitsUsed, l.hashUsed, l.bad)
            else r == l && sr == {}
    ensures Extract(H, n, bits, hashes, h, pos, bu, hu, bad) == Inner(H, HasRight(n, h, pos), l, r)
    ensures WalkPairs(H, n, bits, hashes, h, pos, bu, hu, bad) == {(l.hash, r.hash)} + sl + sr
    ensures HasRight(n, h, pos) && !r.bad ==> !l.bad
  {
    l := Extract(H, n, bits, hashes, h - 1, 2 * pos, bu + 1, hu, bad);
    sl := WalkPairs(H, n, bits, hashes, h - 1, 2 * pos, bu + 1, hu, bad);
    r, sr := l, {};
    if HasRight(n, h, pos) {
      r := Extract(H, n, bits, hashes, h - 1, 2 * pos + 1, l.bitsUsed, l.hashUsed, l.bad);
      sr := WalkPairs(H, n, bits, hashes, h - 1, 2 * pos + 1, l.bitsUsed, l.hashUsed, l.bad);
      BadStays(H, n, bits, hashes, h - 1, 2 * pos + 1, l.bitsUsed, l.hashUsed, l.bad);
    }
  }

  /** The hash of an inner node fixes the hashes of its children. */
  lemma HashSplits(H: PairHash, txids: seq<Hash>, bits: seq<bool>, hashes: seq<Hash>, h: nat, pos: nat, bu: nat, hu: nat, bad: bool,
                   s: set<(Hash, Hash)>, t: set<(Hash, Hash)>) returns (l: Walk, r: Walk)
    requires bu < |bits| && h > 0 && bits[bu]
    requires ReadsTrue(H, txids, bits, hashes, h, pos, bu, hu, bad, s, t) && !Collides(H, s, t)
    ensures ReadsTrue(H, txids, bits, hashes, h - 1, 2 * pos, bu + 1, hu, bad, s, t)
    ensures HasRight(|txids|, h, pos) ==> ReadsTrue(H, txids, bits, hashes, h - 1, 2 * pos + 1, l.bitsUsed, l.hashUsed, l.bad, s, t)
    ensures l == Extract(H, |txids|, bits, hashes, h - 1, 2 * pos, bu + 1, hu, bad)
    ensures HasRight(|txids|, h, pos) ==> r == Extract(H, |txids|, bits, hashes, h - 1, 2 * pos + 1, l.bitsUsed, l.hashUsed, l.bad)
    ensures Extract(H, |txids|, bits, hashes, h, pos, bu, hu, bad) == Inner(H, HasRight(|txids|, h, pos), l, r)
  {
    var sl, sr;
    l, r, sl, sr := WalkParts(H, |txids|, bits, hashes, h, pos, bu, hu, bad);
    var x := NodePair(H, txids, h, pos);
    SamePair(H, (l.hash, r.hash), x, s, t);
  }

  lemma GenuineConcat(txids: seq<Hash>, l: Walk, r: Walk, w: Walk)
    requires Genuine(txids, l) && Genuine(txids, r) && w.matches == l.matches + r.matches && w.indices == l.indices + r.indices
    ensures Genuine(txids, w)
  {
  }

  // ---------- what the encoding holds ----------

  predicate HasRight(n: nat, h: nat, pos: nat)
    requires h > 0
  {
    2 * pos + 1 < CalcTreeWidth(n, h - 1)
  }

  /** The leaves of a node are those of its children, side by side. */
  lemma Halves(n: nat, h: nat, pos: nat)
    requires h > 0 && InTree(n, h, pos)
    ensures First(h - 1, 2 * pos) == First(h, pos) && InTree(n, h - 1, 2 * pos)
    ensures HasRight(n, h, pos) <==> InTree(n, h - 1, 2 * pos + 1)
    ensures First(h, pos) < End(n, h - 1, 2 * pos) <= End(n, h, pos) <= n
    ensures if HasRight(n, h, pos)
            then End(n, h - 1, 2 * pos) == First(h - 1, 2 * pos + 1) < End(n, h, pos) && End(n, h - 1, 2 * pos + 1) == End(n, h, pos)
            else End(n, h - 1, 2 * pos) == End(n, h, pos)
  {
    Children(h, pos);
    Children(h, pos + 1);
    WidthMeaning(n, h - 1, 2 * pos + 1);
    assert First(h - 1, 2 * pos + 2) == First(h, pos + 1);
  }

  /** The matched positions from `lo` up to `hi`, in order. */
  ghost function Matched(match_: seq<bool>, lo: nat, hi: nat): seq<nat>
    requires hi <= |match_|
  {
    if lo >= hi then [] else Matched(match_, lo, hi - 1) + if match_[hi - 1] then [hi - 1] else []
  }

  ghost function TxidsAt(txids: seq<Hash>, at: seq<nat>): (r: seq<Hash>)
    requires forall k | 0 <= k < |at| :: at[k] < |txids|
    ensures |r| == |at|
  {
    seq(|at|, k requires 0 <= k < |at| => txids[at[k]])
  }

  lemma {:induction false} MatchedSplit(match_: seq<bool>, lo: nat, mid: nat, hi: nat)
    requires lo <= mid <= hi <= |match_|
    ensures Matched(match_, lo, hi) == Matched(match_, lo, mid) + Matched(match_, mid, hi)
    decreases hi - mid
  {
    if mid < hi {
      MatchedSplit(match_, lo, mid, hi - 1);
    }
  }

  lemma {:induction false} MatchedNone(match_: seq<bool>, lo: nat, hi: nat)
    requires hi <= |match_|
    ensures Matched(match_, lo, hi) == [] <==> !AnyMatch(match_, lo, hi)
    ensures forall k | 0 <= k < |Matched(match_, lo, hi)| :: lo <= Matched(match_, lo, hi)[k] < hi
    decreases hi
  {
    if lo < hi {
      MatchedNone(match_, lo, hi - 1);
      if AnyMatch(match_, lo, hi) && !match_[hi - 1] {
        var p :| lo <= p < hi && match_[p];
        assert lo <= p < hi - 1;
      }
    }
  }

  /** The number of stored hashes: one per leaf at most, never more than bits, and at most
      one plus the height for every match. */
  lemma {:induction false} HashCount(H: PairHash, txids: seq<Hash>, match_: seq<bool>, h: nat, pos: nat)
    requires |txids| == |match_| && InTree(|txids|, h, pos)
    ensures End(|txids|, h, pos) <= |match_|
    ensures |Hashes(H, txids, match_, h, pos)| <= End(|txids|, h, pos) - First(h, pos)
    ensures |Hashes(H, txids, match_, h, pos)| <= |Bits(match_, h, pos)|
    ensures |Hashes(H, txids, match_, h, pos)| <= 1 + |Matched(match_, First(h, pos), End(|txids|, h, pos))| * h
    decreases h
  {
    var n := |txids|;
    var m := Matched(match_, First(h, pos), End(n, h, pos));
    MatchedNone(match_, First(h, pos), End(n, h, pos));
    if h > 0 {
      Halves(n, h, pos);
      if ParentOfMatch(match_, h, pos) {
        HashCount(H, txids, match_, h - 1, 2 * pos);
        var ml := Matched(match_, First(h, pos), End(n, h - 1, 2 * pos));
        if HasRight(n, h, pos) {
          HashCount(H, txids, match_, h - 1, 2 * pos + 1);
          var mr := Matched(match_, First(h - 1, 2 * pos + 1), End(n, h, pos));
          MatchedSplit(match_, First(h, pos), End(n, h - 1, 2 * pos), End(n, h, pos));
          CountBound(|ml|, |mr|, h);
        } else {
          CountBound(|ml|, 0, h);
        }
      }
    }
  }

  lemma CountBound(a: nat, b: nat, h: nat)
    requires h > 0 && a + b > 0
    ensures 1 + a * (h - 1) + 1 + b * (h - 1) <= 1 + (a + b) * h
    ensures 1 + a * (h - 1) <= 1 + a * h
  {
    assert (a + b) * h == a * (h - 1) + b * (h - 1) + (a + b);
    assert a * h == a * (h - 1) + a;
  }

  ghost predicate Distinct(txids: seq<Hash>) {
    forall j, k | 0 <= j < k < |txids| :: txids[j] != txids[k]
  }

  /** Different nodes of one height have different hashes, if no pairs of the tree collide. */
  lemma {:induction false} NodesDiffer(H: PairHash, txids: seq<Hash>, h: nat, a: nat, b: nat, t: set<(Hash, Hash)>)
    requires Distinct(txids) && a < b && InTree(|txids|, h, a) && InTree(|txids|, h, b)
    requires TreePairs(H, txids, h, a) <= t && TreePairs(H, txids, h, b) <= t && !Collides(H, t, t)
    ensures CalcHash(H, txids, h, a) != CalcHash(H, txids, h, b)
    decreases h
  {
    if h == 0 {
      assert First(0, a) == a && First(0, b) == b;
    } else {
      var x := NodePair(H, txids, h, a);
      var y := NodePair(H, txids, h, b);
      NodesDiffer(H, txids, h - 1, 2 * a, 2 * b, t);
      if H(x.0, x.1) == H(y.0, y.1) { SamePair(H, x, y, t, t); }
    }
  }

  lemma NodePair(H: PairHash, txids: seq<Hash>, h: nat, pos: nat) returns (x: (Hash, Hash))
    requires h > 0 && InTree(|txids|, h, pos)
    ensures InTree(|txids|, h - 1, 2 * pos) && x.0 == CalcHash(H, txids, h - 1, 2 * pos)
    ensures CalcHash(H, txids, h, pos) == H(x.0, x.1) && x in TreePairs(H, txids, h, pos)
    ensures TreePairs(H, txids, h - 1, 2 * pos) <= TreePairs(H, txids, h, pos)
    ensures if HasRight(|txids|, h, pos)
            then && InTree(|txids|, h - 1, 2 * pos + 1) && x.1 == CalcHash(H, txids, h - 1, 2 * pos + 1)
                 && TreePairs(H, txids, h - 1, 2 * pos + 1) <= TreePairs(H, txids, h, pos)
            else x.1 == x.0
  {
    Halves(|txids|, h, pos);
    var l := CalcHash(H, txids, h - 1, 2 * pos);
    x := (l, if HasRight(|txids|, h, pos) then CalcHash(H, txids, h - 1, 2 * pos + 1) else l);
  }

  /** `t` occurs in `s` at position i. */
  ghost predicate At<T(!new)>(s: seq<T>, i: nat, t: seq<T>) {
    i + |t| <= |s| && forall k | 0 <= k < |t| :: s[i + k] == t[k]
  }

  lemma AtSplit<T(!new)>(s: seq<T>, i: nat, a: seq<T>, b: seq<T>)
    requires At(s, i, a + b)
    ensures At(s, i, a) && At(s, i + |a|, b)
  {
    forall k | 0 <= k < |a| ensures s[i + k] == a[k] { assert (a + b)[k] == a[k]; }
    forall k | 0 <= k < |b| ensures s[i + |a| + k] == b[k] { assert (a + b)[|a| + k] == b[k]; }
  }

  /** No two children that are read of one node have the same hash. */
  ghost predicate NoTwins(H: PairHash, txids: seq<Hash>, match_: seq<bool>, h: nat, pos: nat)
    requires |txids| == |match_| && InTree(|txids|, h, pos)
  {
    h == 0 || !ParentOfMatch(match_, h, pos) ||
    (Halves(|txids|, h, pos);
     && NoTwins(H, txids, match_, h - 1, 2 * pos)
     && (HasRight(|txids|, h, pos) ==>
           && CalcHash(H, txids, h - 1, 2 * pos) != CalcHash(H, txids, h - 1, 2 * pos + 1)
           && NoTwins(H, txids, match_, h - 1, 2 * pos + 1)))
  }

  /** Distinct ids leave no twins, if no pairs of the tree collide. */
  lemma {:induction false} DistinctNoTwins(H: PairHash, txids: seq<Hash>, match_: seq<bool>, h: nat, pos: nat, t: set<(Hash, Hash)>)
    requires |txids| == |match_| && InTree(|txids|, h, pos) && Distinct(txids)
    requires TreePairs(H, txids, h, pos) <= t && !Collides(H, t, t)
    ensures NoTwins(H, txids, match_, h, pos)
    decreases h
  {
    if h > 0 {
      var x := NodePair(H, txids, h, pos);
      DistinctNoTwins(H, txids, match_, h - 1, 2 * pos, t);
      if HasRight(|txids|, h, pos) {
        DistinctNoTwins(H, txids, match_, h - 1, 2 * pos + 1, t);
        NodesDiffer(H, txids, h - 1, 2 * pos, 2 * pos + 1, t);
      }
    }
  }

  /** What reading the encoding of a subtree must give. */
  ghost function Expected(H: PairHash, txids: seq<Hash>, match_: seq<bool>, h: nat, pos: nat, bu: nat, hu: nat): Walk
    requires |txids| == |match_| && InTree(|txids|, h, pos)
  {
    MatchedNone(match_, First(h, pos), End(|txids|, h, pos));
    var at := Matched(match_, First(h, pos), End(|txids|, h, pos));
    Walk(bu + |Bits(match_, h, pos)|, hu + |Hashes(H, txids, match_, h, pos)|, false, TxidsAt(txids, at), at, CalcHash(H, txids, h, pos))
  }

  /** The encoding of a subtree stands in the bits and hashes at the given places. */
  ghost predicate Stands(H: PairHash, txids: seq<Hash>, match_: seq<bool>, h: nat, pos: nat, bits: seq<bool>, hashes: seq<Hash>, bu: nat, hu: nat) {
    && |txids| == |match_| && InTree(|txids|, h, pos)
    && At(bits, bu, Bits(match_, h, pos)) && At(hashes, hu, Hashes(H, txids, match_, h, pos))
  }

  /** Completeness for a subtree: wherever its encoding stands in the bits and hashes, reading
      it gives the true hash and exactly the matched leaves. */
  lemma {:induction false} ReadsBack(H: PairHash, txids: seq<Hash>, match_: seq<bool>, h: nat, pos: nat,
                                     bits: seq<bool>, hashes: seq<Hash>, bu: nat, hu: nat)
    requires Stands(H, txids, match_, h, pos, bits, hashes, bu, hu) && NoTwins(H, txids, match_, h, pos)
    ensures Extract(H, |txids|, bits, hashes, h, pos, bu, hu, false) == Expected(H, txids, match_, h, pos, bu, hu)
    decreases h
  {
    var n := |txids|;
    if h == 0 || !ParentOfMatch(match_, h, pos) {
      LeafReadsBack(H, txids, match_, h, pos, bits, hashes, bu, hu);
    } else {
      InnerStands(H, txids, match_, h, pos, bits, hashes, bu, hu);
      ReadsBack(H, txids, match_, h - 1, 2 * pos, bits, hashes, bu + 1, hu);
      var l := Expected(H, txids, match_, h - 1, 2 * pos, bu + 1, hu);
      var r := l;
      if HasRight(n, h, pos) {
        ReadsBack(H, txids, match_, h - 1, 2 * pos + 1, bits, hashes, l.bitsUsed, l.hashUsed);
        r := Expected(H, txids, match_, h - 1, 2 * pos + 1, l.bitsUsed, l.hashUsed);
      }
      ExtractInner(H, n, bits, hashes, h, pos, bu, hu, false, l, r);
      JoinExpected(H, txids, match_, h, pos, bu, hu);
    }
  }

  /** An encoding with twins is refused. */
  lemma {:induction false} TwinsAreBad(H: PairHash, txids: seq<Hash>, match_: seq<bool>, h: nat, pos: nat,
                                       bits: seq<bool>, hashes: seq<Hash>, bu: nat, hu: nat)
    requires Stands(H, txids, match_, h, pos, bits, hashes, bu, hu) && !NoTwins(H, txids, match_, h, pos)
    ensures Extract(H, |txids|, bits, hashes, h, pos, bu, hu, false).bad
    decreases h, 1
  {
    RightTwin(H, txids, match_, h, pos);
    if NoTwins(H, txids, match_, h - 1, 2 * pos) {
      TwinsOnRight(H, txids, match_, h, pos, bits, hashes, bu, hu);
    } else {
      InnerStands(H, txids, match_, h, pos, bits, hashes, bu, hu);
      TwinsAreBad(H, txids, match_, h - 1, 2 * pos, bits, hashes, bu + 1, hu);
      BadLeft(H, |txids|, bits, hashes, h, pos, bu, hu);
    }
  }

  lemma {:induction false} TwinsOnRight(H: PairHash, txids: seq<Hash>, match_: seq<bool>, h: nat, pos: nat,
                                        bits: seq<bool>, hashes: seq<Hash>, bu: nat, hu: nat)
    requires Stands(H, txids, match_, h, pos, bits, hashes, bu, hu) && h > 0 && ParentOfMatch(match_, h, pos)
    requires InTree(|txids|, h - 1, 2 * pos) && NoTwins(H, txids, match_, h - 1, 2 * pos)
    requires HasRight(|txids|, h, pos) && InTree(|txids|, h - 1, 2 * pos + 1)
    requires CalcHash(H, txids, h - 1, 2 * pos) == CalcHash(H, txids, h - 1, 2 * pos + 1) || !NoTwins(H, txids, match_, h - 1, 2 * pos + 1)
    ensures Extract(H, |txids|, bits, hashes, h, pos, bu, hu, false).bad
    decreases h, 0
  {
    InnerStands(H, txids, match_, h, pos, bits, hashes, bu, hu);
    var bu', hu' := bu + 1 + |Bits(match_, h - 1, 2 * pos)|, hu + |Hashes(H, txids, match_, h - 1, 2 * pos)|;
    if !NoTwins(H, txids, match_, h - 1, 2 * pos + 1) {
      TwinsAreBad(H, txids, match_, h - 1, 2 * pos + 1, bits, hashes, bu', hu');
    }
    TwinsRight(H, txids, match_, h, pos, bits, hashes, bu, hu, bu', hu');
  }

  lemma TwinsRight(H: PairHash, txids: seq<Hash>, match_: seq<bool>, h: nat, pos: nat, bits: seq<bool>, hashes: seq<Hash>,
                   bu: nat, hu: nat, bu': nat, hu': nat)
    requires h > 0 && bu < |bits| && bits[bu] && |txids| == |match_| && HasRight(|txids|, h, pos)
    requires Stands(H, txids, match_, h - 1, 2 * pos, bits, hashes, bu + 1, hu) && NoTwins(H, txids, match_, h - 1, 2 * pos)
    requires bu' == bu + 1 + |Bits(match_, h - 1, 2 * pos)| && hu' == hu + |Hashes(H, txids, match_, h - 1, 2 * pos)|
    requires Stands(H, txids, match_, h - 1, 2 * pos + 1, bits, hashes, bu', hu')
    requires if NoTwins(H, txids, match_, h - 1, 2 * pos + 1) then CalcHash(H, txids, h - 1, 2 * pos) == CalcHash(H, txids, h - 1, 2 * pos + 1)
             else Extract(H, |txids|, bits, hashes, h - 1, 2 * pos + 1, bu', hu', false).bad
    ensures Extract(H, |txids|, bits, hashes, h, pos, bu, hu, false).bad
  {
    ReadsHash(H, txids, match_, h - 1, 2 * pos, bits, hashes, bu + 1, hu);
    if NoTwins(H, txids, match_, h - 1, 2 * pos + 1) {
      ReadsHash(H, txids, match_, h - 1, 2 * pos + 1, bits, hashes, bu', hu');
    }
    BadRight(H, |txids|, bits, hashes, h, pos, bu, hu, bu', hu');
  }

  lemma ReadsHash(H: PairHash, txids: seq<Hash>, match_: seq<bool>, h: nat, pos: nat, bits: seq<bool>, hashes: seq<Hash>, bu: nat, hu: nat)
    requires Stands(H, txids, match_, h, pos, bits, hashes, bu, hu) && NoTwins(H, txids, match_, h, pos)
    ensures var w := Extract(H, |txids|, bits, hashes, h, pos, bu, hu, false);
            && !w.bad && w.hash == CalcHash(H, txids, h, pos)
            && w.bitsUsed == bu + |Bits(match_, h, pos)| && w.hashUsed == hu + |Hashes(H, txids, match_, h, pos)|
  {
    ReadsBack(H, txids, match_, h, pos, bits, hashes, bu, hu);
  }

  lemma BadLeft(H: PairHash, n: nat, bits: seq<bool>, hashes: seq<Hash>, h: nat, pos: nat, bu: nat, hu: nat)
    requires h > 0 && bu < |bits| && bits[bu] && Extract(H, n, bits, hashes, h - 1, 2 * pos, bu + 1, hu, false).bad
    ensures Extract(H, n, bits, hashes, h, pos, bu, hu, false).bad
  {
    var l := Extract(H, n, bits, hashes, h - 1, 2 * pos, bu + 1, hu, false);
    BadStays(H, n, bits, hashes, h - 1, 2 * pos + 1, l.bitsUsed, l.hashUsed, l.bad);
  }

  lemma BadRight(H: PairHash, n: nat, bits: seq<bool>, hashes: seq<Hash>, h: nat, pos: nat, bu: nat, hu: nat, bu': nat, hu': nat)
    requires h > 0 && bu < |bits| && bits[bu] && HasRight(n, h, pos)
    requires var l := Extract(H, n, bits, hashes, h - 1, 2 * pos, bu + 1, hu, false);
             var r := Extract(H, n, bits, hashes, h - 1, 2 * pos + 1, bu', hu', false);
             l.bitsUsed == bu' && l.hashUsed == hu' && !l.bad && (r.bad || r.hash == l.hash)
    ensures Extract(H, n, bits, hashes, h, pos, bu, hu, false).bad
  {
  }

  lemma RightTwin(H: PairHash, txids: seq<Hash>, match_: seq<bool>, h: nat, pos: nat)
    requires |txids| == |match_| && InTree(|txids|, h, pos) && !NoTwins(H, txids, match_, h, pos)
    ensures h > 0 && ParentOfMatch(match_, h, pos) && InTree(|txids|, h - 1, 2 * pos)
    ensures NoTwins(H, txids, match_, h - 1, 2 * pos) ==>
              && HasRight(|txids|, h, pos) && InTree(|txids|, h - 1, 2 * pos + 1)
              && (CalcHash(H, txids, h - 1, 2 * pos) != CalcHash(H, txids, h - 1, 2 * pos + 1) ==> !NoTwins(H, txids, match_, h - 1, 2 * pos + 1))
  {
    Halves(|txids|, h, pos);
  }

  lemma LeafReadsBack(H: PairHash, txids: seq<Hash>, match_: seq<bool>, h: nat, pos: nat, bits: seq<bool>, hashes: seq<Hash>, bu: nat, hu: nat)
    requires |txids| == |match_| && InTree(|txids|, h, pos) && (h == 0 || !ParentOfMatch(match_, h, pos))
    requires At(bits, bu, Bits(match_, h, pos)) && At(hashes, hu, Hashes(H, txids, match_, h, pos))
    ensures Extract(H, |txids|, bits, hashes, h, pos, bu, hu, false) == Expected(H, txids, match_, h, pos, bu, hu)
  {
    assert bits[bu + 0] == Bits(match_, h, pos)[0];
    assert hashes[hu + 0] == Hashes(H, txids, match_, h, pos)[0];
    MatchedNone(match_, First(h, pos), End(|txids|, h, pos));
    if h == 0 { LeafMatched(match_, pos); }
  }

  lemma LeafMatched(match_: seq<bool>, pos: nat)
    requires pos < |match_|
    ensures First(0, pos) == pos && End(|match_|, 0, pos) == pos + 1
    ensures Matched(match_, pos, pos + 1) == if match_[pos] then [pos] else []
    ensures ParentOfMatch(match_, 0, pos) == match_[pos]
  {
    assert First(0, pos + 1) == pos + 1;
    assert Matched(match_, pos, pos) == [];
    if ParentOfMatch(match_, 0, pos) {
      var p :| pos <= p < pos + 1 && match_[p];
      assert p == pos;
    }
  }

  /** Where the bits of the children stand. */
  lemma InnerBits(match_: seq<bool>, h: nat, pos: nat, bits: seq<bool>, bu: nat)
    requires h > 0 && ParentOfMatch(match_, h, pos) && At(bits, bu, Bits(match_, h, pos))
    ensures bu < |bits| && bits[bu] && At(bits, bu + 1, Bits(match_, h - 1, 2 * pos))
    ensures HasRight(|match_|, h, pos) ==>
              At(bits, bu + 1 + |Bits(match_, h - 1, 2 * pos)|, Bits(match_, h - 1, 2 * pos + 1))
  {
    var bl := Bits(match_, h - 1, 2 * pos);
    var br := BitsInner(match_, h, pos);
    SplitThree(bits, bu, true, bl, br);
  }

  lemma BitsInner(match_: seq<bool>, h: nat, pos: nat) returns (br: seq<bool>)
    requires h > 0 && ParentOfMatch(match_, h, pos)
    ensures Bits(match_, h, pos) == [true] + (Bits(match_, h - 1, 2 * pos) + br)
    ensures br == if HasRight(|match_|, h, pos) then Bits(match_, h - 1, 2 * pos + 1) else []
  {
    br := if HasRight(|match_|, h, pos) then Bits(match_, h - 1, 2 * pos + 1) else [];
  }

  lemma SplitThree(s: seq<bool>, i: nat, x: bool, a: seq<bool>, b: seq<bool>)
    requires At(s, i, [x] + (a + b))
    ensures i < |s| && s[i] == x && At(s, i + 1, a) && At(s, i + 1 + |a|, b)
  {
    AtSplit(s, i, [x], a + b);
    AtSplit(s, i + 1, a, b);
    assert s[i + 0] == [x][0];
  }

  /** Where the hashes of the children stand. */
  lemma InnerHashes(H: PairHash, txids: seq<Hash>, match_: seq<bool>, h: nat, pos: nat, hashes: seq<Hash>, hu: nat)
    requires |txids| == |match_| && InTree(|txids|, h, pos) && h > 0 && ParentOfMatch(match_, h, pos)
    requires At(hashes, hu, Hashes(H, txids, match_, h, pos))
    ensures InTree(|txids|, h - 1, 2 * pos) && At(hashes, hu, Hashes(H, txids, match_, h - 1, 2 * pos))
    ensures HasRight(|txids|, h, pos) ==>
              && InTree(|txids|, h - 1, 2 * pos + 1)
              && At(hashes, hu + |Hashes(H, txids, match_, h - 1, 2 * pos)|, Hashes(H, txids, match_, h - 1, 2 * pos + 1))
  {
    Halves(|txids|, h, pos);
    var hl := Hashes(H, txids, match_, h - 1, 2 * pos);
    var hr := if HasRight(|txids|, h, pos) then Hashes(H, txids, match_, h - 1, 2 * pos + 1) else [];
    AtSplit(hashes, hu, hl, hr);
  }

  /** Where the encodings of the children stand. */
  lemma InnerStands(H: PairHash, txids: seq<Hash>, match_: seq<bool>, h: nat, pos: nat, bits: seq<bool>, hashes: seq<Hash>, bu: nat, hu: nat)
    requires Stands(H, txids, match_, h, pos, bits, hashes, bu, hu) && h > 0 && ParentOfMatch(match_, h, pos)
    ensures bu < |bits| && bits[bu] && Stands(H, txids, match_, h - 1, 2 * pos, bits, hashes, bu + 1, hu)
    ensures HasRight(|txids|, h, pos) ==>
              Stands(H, txids, match_, h - 1, 2 * pos + 1, bits, hashes,
                     bu + 1 + |Bits(match_, h - 1, 2 * pos)|, hu + |Hashes(H, txids, match_, h - 1, 2 * pos)|)
  {
    InnerBits(match_, h, pos, bits, bu);
    InnerHashes(H, txids, match_, h, pos, hashes, hu);
  }

  /** An inner node, from what its children read. */
  lemma ExtractInner(H: PairHash, n: nat, bits: seq<bool>, hashes: seq<Hash>, h: nat, pos: nat, bu: nat, hu: nat, bad: bool, l: Walk, r: Walk)
    requires h > 0 && bu < |bits| && bits[bu]
    requires l == Extract(H, n, bits, hashes, h - 1, 2 * pos, bu + 1, hu, bad)
    requires HasRight(n, h, pos) ==> r == Extract(H, n, bits, hashes, h - 1, 2 * pos + 1, l.bitsUsed, l.hashUsed, l.bad)
    ensures Extract(H, n, bits, hashes, h, pos, bu, hu, bad) == Inner(H, HasRight(n, h, pos), l, r)
  {
  }

  function Inner(H: PairHash, hasRight: bool, l: Walk, r: Walk): Walk {
    if hasRight then
      Walk(r.bitsUsed, r.hashUsed, r.bad || r.hash == l.hash, l.matches + r.matches, l.indices + r.indices, H(l.hash, r.hash))
    else
      l.(hash := H(l.hash, l.hash))
  }

  lemma JoinExpected(H: PairHash, txids: seq<Hash>, match_: seq<bool>, h: nat, pos: nat, bu: nat, hu: nat)
    requires |txids| == |match_| && InTree(|txids|, h, pos) && h > 0 && ParentOfMatch(match_, h, pos) && InTree(|txids|, h - 1, 2 * pos)
    ensures !HasRight(|txids|, h, pos) ==>
              var l := Expected(H, txids, match_, h - 1, 2 * pos, bu + 1, hu);
              Expected(H, txids, match_, h, pos, bu, hu) == l.(hash := H(l.hash, l.hash))
    ensures HasRight(|txids|, h, pos) ==>
              && InTree(|txids|, h - 1, 2 * pos + 1)
              && var l := Expected(H, txids, match_, h - 1, 2 * pos, bu + 1, hu);
                 var r := Expected(H, txids, match_, h - 1, 2 * pos + 1, l.bitsUsed, l.hashUsed);
                 Expected(H, txids, match_, h, pos, bu, hu) ==
                   Walk(r.bitsUsed, r.hashUsed, false, l.matches + r.matches, l.indices + r.indices, H(l.hash, r.hash))
  {
    var n := |txids|;
    Halves(n, h, pos);
    var lo, mid, hi := First(h, pos), End(n, h - 1, 2 * pos), End(n, h, pos);
    MatchedNone(match_, lo, hi);
    MatchedNone(match_, lo, mid);
    MatchedNone(match_, mid, hi);
    MatchedSplit(match_, lo, mid, hi);
    assert TxidsAt(txids, Matched(match_, lo, hi)) == TxidsAt(txids, Matched(match_, lo, mid)) + TxidsAt(txids, Matched(match_, mid, hi));
  }

  // ---------- the class ----------

  /** The least height at which the tree has one node. */
  ghost predicate IsHeight(n: nat, h: nat) {
    CalcTreeWidth(n, h) <= 1 && forall g | 0 <= g < h :: CalcTreeWidth(n, g) > 1
  }

  lemma {:induction false} Pow2Exceeds(h: nat)
    ensures P2(h) > h
    decreases h
  {
    if h > 0 { Pow2Exceeds(h - 1); }
  }

  // The loop that finds the height of the tree.
  method TreeHeight(n: nat) returns (h: nat)
    ensures IsHeight(n, h)
  {
    h := 0;
    while CalcTreeWidth(n, h) > 1
      invariant forall g | 0 <= g < h :: CalcTreeWidth(n, g) > 1
      decreases n - h
    {
      WidthMeaning(n, h, 1);
      Pow2Exceeds(h);
      h := h + 1;
    }
  }

  lemma FirstGrows(h: nat, pos: nat)
    ensures First(h, pos) < First(h, pos + 1)
  {
    assert (pos + 1) * P2(h) == pos * P2(h) + P2(h);
  }

  // The loop over the leaves below a node.
  method ScanLeaves(match_: seq<bool>, h: nat, pos: nat) returns (parentOfMatch: bool)
    requires InTree(|match_|, h, pos)
    ensures parentOfMatch == ParentOfMatch(match_, h, pos)
  {
    FirstGrows(h, pos);
    parentOfMatch := false;
    for p := First(h, pos) to End(|match_|, h, pos)
      invariant parentOfMatch <==> AnyMatch(match_, First(h, pos), p)
    {
      parentOfMatch := parentOfMatch || match_[p];
    }
  }

  lemma Regroup<T>(a: seq<T>, b: seq<T>, c: seq<T>, d: seq<T>)
    ensures a + b + c + d == a + (b + (c + d))
    ensures a + b + c + [] == a + b + c && a + [] + c == a + c && [] + (c + d) == c + d
  {
  }

  // Appends the encoding of a subtree to vBits and vHash.
  method TraverseAndBuild(H: PairHash, h: nat, pos: nat, txids: seq<Hash>, match_: seq<bool>, vBits: seq<bool>, vHash: seq<Hash>)
    returns (bits: seq<bool>, hashes: seq<Hash>)
    requires |txids| == |match_| && InTree(|txids|, h, pos)
    ensures bits == vBits + Bits(match_, h, pos)
    ensures hashes == vHash + Hashes(H, txids, match_, h, pos)
    decreases h
  {
    var parentOfMatch := ScanLeaves(match_, h, pos);
    bits, hashes := vBits + [parentOfMatch], vHash;
    if h == 0 || !parentOfMatch {
      hashes := hashes + [CalcHash(H, txids, h, pos)];
    } else {
      ghost var br := BitsInner(match_, h, pos);
      ghost var hr := HashesInner(H, txids, match_, h, pos);
      bits, hashes := TraverseAndBuild(H, h - 1, 2 * pos, txids, match_, bits, hashes);
      if 2 * pos + 1 < CalcTreeWidth(|txids|, h - 1) {
        bits, hashes := TraverseAndBuild(H, h - 1, 2 * pos + 1, txids, match_, bits, hashes);
      }
      Regroup(vBits, [true], Bits(match_, h - 1, 2 * pos), br);
      Regroup(vHash, [], Hashes(H, txids, match_, h - 1, 2 * pos), hr);
    }
  }

  lemma HashesInner(H: PairHash, txids: seq<Hash>, match_: seq<bool>, h: nat, pos: nat) returns (hr: seq<Hash>)
    requires |txids| == |match_| && InTree(|txids|, h, pos) && h > 0 && ParentOfMatch(match_, h, pos)
    ensures InTree(|txids|, h - 1, 2 * pos) && (HasRight(|txids|, h, pos) ==> InTree(|txids|, h - 1, 2 * pos + 1))
    ensures Hashes(H, txids, match_, h, pos) == Hashes(H, txids, match_, h - 1, 2 * pos) + hr
    ensures hr == if HasRight(|txids|, h, pos) then Hashes(H, txids, match_, h - 1, 2 * pos + 1) else []
  {
    Halves(|txids|, h, pos);
    hr := if HasRight(|txids|, h, pos) then Hashes(H, txids, match_, h - 1, 2 * pos + 1) else [];
  }

  /** Extract's results, appended to what was there. */
  ghost predicate Follows(w: Walk, vMatch: seq<Hash>, vnIndex: seq<nat>, bu: nat, hu: nat, bad: bool, matches: seq<Hash>, indices: seq<nat>, hash: Hash) {
    && bu == w.bitsUsed && hu == w.hashUsed && bad == w.bad && hash == w.hash
    && matches == vMatch + w.matches && indices == vnIndex + w.indices
  }

  lemma FollowsInner(H: PairHash, l: Walk, r: Walk, vMatch: seq<Hash>, vnIndex: seq<nat>, bu: nat, hu: nat, matches: seq<Hash>, indices: seq<nat>)
    requires Follows(r, vMatch + l.matches, vnIndex + l.indices, bu, hu, r.bad, matches, indices, r.hash)
    ensures Follows(Inner(H, true, l, r), vMatch, vnIndex, bu, hu, r.bad || r.hash == l.hash, matches, indices, H(l.hash, r.hash))
  {
    assert (vMatch + l.matches) + r.matches == vMatch + (l.matches + r.matches);
    assert (vnIndex + l.indices) + r.indices == vnIndex + (l.indices + r.indices);
  }

  // Reads a subtree, consuming bits and hashes and appending to vMatch and vnIndex.
  method TraverseAndExtract(H: PairHash, n: nat, vBits: seq<bool>, vHash: seq<Hash>, h: nat, pos: nat,
                            bitsUsed: nat, hashUsed: nat, fBad: bool, vMatch: seq<Hash>, vnIndex: seq<nat>)
    returns (bu: nat, hu: nat, bad: bool, matches: seq<Hash>, indices: seq<nat>, hash: Hash)
    ensures Follows(Extract(H, n, vBits, vHash, h, pos, bitsUsed, hashUsed, fBad), vMatch, vnIndex, bu, hu, bad, matches, indices, hash)
    decreases h
  {
    bu, hu, bad, matches, indices := bitsUsed, hashUsed, fBad, vMatch, vnIndex;
    if bu >= |vBits| {
      bad, hash := true, NULL_HASH;
      return;
    }
    var parentOfMatch := vBits[bu];
    bu := bu + 1;
    if h == 0 || !parentOfMatch {
      if hu >= |vHash| {
        bad, hash := true, NULL_HASH;
        return;
      }
      hash := vHash[hu];
      hu := hu + 1;
      if h == 0 && parentOfMatch {
        matches, indices := matches + [hash], indices + [pos];
      }
    } else {
      var left, right;
      ghost var l := Extract(H, n, vBits, vHash, h - 1, 2 * pos, bitsUsed + 1, hashUsed, fBad);
      ghost var r := Extract(H, n, vBits, vHash, h - 1, 2 * pos + 1, l.bitsUsed, l.hashUsed, l.bad);
      ExtractInner(H, n, vBits, vHash, h, pos, bitsUsed, hashUsed, fBad, l, r);
      bu, hu, bad, matches, indices, left := TraverseAndExtract(H, n, vBits, vHash, h - 1, 2 * pos, bu, hu, bad, matches, indices);
      if 2 * pos + 1 < CalcTreeWidth(n, h - 1) {
        bu, hu, bad, matches, indices, right := TraverseAndExtract(H, n, vBits, vHash, h - 1, 2 * pos + 1, bu, hu, bad, matches, indices);
        bad := bad || right == left;
        FollowsInner(H, l, r, vMatch, vnIndex, bu, hu, matches, indices);
      } else {
        right := left;
      }
      hash := H(left, right);
    }
  }

  // ---------- packing bits into bytes ----------

  method BitsToBytes(bits: seq<bool>) returns (bytes: seq<bv8>)
    ensures |bytes| == (|bits| + 7) / 8
    ensures forall p | 0 <= p < 8 * |bytes| :: Bit(bytes[p / 8], p % 8) == (p < |bits| && bits[p])
  {
    bytes := seq((|bits| + 7) / 8, _ => 0);
    for p := 0 to |bits|
      invariant |bytes| == (|bits| + 7) / 8
      invariant forall q | 0 <= q < 8 * |bytes| :: Bit(bytes[q / 8], q % 8) == (q < p && bits[q])
    {
      if bits[p] {
        ghost var before := bytes;
        bytes := bytes[p / 8 := bytes[p / 8] | Mask(p % 8)];
        forall q | 0 <= q < 8 * |bytes| ensures Bit(bytes[q / 8], q % 8) == (q < p + 1 && bits[q]) {
          if q / 8 == p / 8 { SetBit(before[p / 8], p % 8, q % 8); }
        }
      }
    }
  }

  method BytesToBits(bytes: seq<bv8>) returns (bits: seq<bool>)
    ensures |bits| == 8 * |bytes| && forall p | 0 <= p < |bits| :: bits[p] == Bit(bytes[p / 8], p % 8)
  {
    bits := [];
    for p := 0 to 8 * |bytes|
      invariant |bits| == p && forall q | 0 <= q < p :: bits[q] == Bit(bytes[q / 8], q % 8)
    {
      bits := bits + [Bit(bytes[p / 8], p % 8)];
    }
  }

  // ---------- the class ----------

  /** The size checks ExtractMatches makes before it reads the tree. */
  predicate Plausible(n: nat, bits: seq<bool>, hashes: seq<Hash>) {
    0 < n <= MAX_BLOCK_WEIGHT / MIN_TRANSACTION_WEIGHT && |hashes| <= n && |bits| >= |hashes|
  }

  /** All bits, up to the padding, and all hashes were used. */
  predicate AllUsed(w: Walk, bits: seq<bool>, hashes: seq<Hash>) {
    (w.bitsUsed + 7) / 8 == (|bits| + 7) / 8 && w.hashUsed == |hashes|
  }

  /** ExtractMatches's answer for a tree of height h. */
  ghost function Answer(H: PairHash, n: nat, bits: seq<bool>, hashes: seq<Hash>, bad: bool, h: nat): Hash {
    var w := Extract(H, n, bits, hashes, h, 0, 0, 0, bad);
    if Plausible(n, bits, hashes) && !w.bad && AllUsed(w, bits, hashes) then w.hash else NULL_HASH
  }

  /** How many nodes a reading visits, and at how many of them it stops and takes a hash. */
  datatype Shape = Shape(nodes: nat, leaves: nat)

  /** The shape of the tree of height h that the flag bits from bu on describe. */
  ghost function ShapeOf(n: nat, bits: seq<bool>, h: nat, pos: nat, bu: nat): Shape
    decreases h
  {
    if bu >= |bits| then Shape(0, 0)
    else if h == 0 || !bits[bu] then Shape(1, 1)
    else
      var l := ShapeOf(n, bits, h - 1, 2 * pos, bu + 1);
      var r := if 2 * pos + 1 < CalcTreeWidth(n, h - 1) then ShapeOf(n, bits, h - 1, 2 * pos + 1, bu + 1 + l.nodes) else Shape(0, 0);
      Shape(1 + l.nodes + r.nodes, l.leaves + r.leaves)
  }

  /** Without an error one bit is read for every node and one hash wherever the reading stops. */
  lemma {:induction false} ReadsByShape(H: PairHash, n: nat, bits: seq<bool>, hashes: seq<Hash>, h: nat, pos: nat, bu: nat, hu: nat, bad: bool)
    requires !Extract(H, n, bits, hashes, h, pos, bu, hu, bad).bad
    ensures ReadsAs(Extract(H, n, bits, hashes, h, pos, bu, hu, bad), ShapeOf(n, bits, h, pos, bu), bu, hu)
    decreases h
  {
    if h > 0 && bits[bu] {
      var l := Extract(H, n, bits, hashes, h - 1, 2 * pos, bu + 1, hu, bad);
      ReadsInner(H, n, bits, hashes, h, pos, bu, hu, bad);
      ReadsByShape(H, n, bits, hashes, h - 1, 2 * pos, bu + 1, hu, bad);
      if 2 * pos + 1 < CalcTreeWidth(n, h - 1) {
        ReadsByShape(H, n, bits, hashes, h - 1, 2 * pos + 1, l.bitsUsed, l.hashUsed, l.bad);
      }
      ShapeInner(n, bits, h, pos, bu);
    }
  }

  ghost predicate ReadsAs(w: Walk, s: Shape, bu: nat, hu: nat) {
    w.bitsUsed == bu + s.nodes && w.hashUsed == hu + s.leaves
  }

  lemma ShapeInner(n: nat, bits: seq<bool>, h: nat, pos: nat, bu: nat)
    requires h > 0 && bu < |bits| && bits[bu]
    ensures var l := ShapeOf(n, bits, h - 1, 2 * pos, bu + 1);
            var r := if 2 * pos + 1 < CalcTreeWidth(n, h - 1) then ShapeOf(n, bits, h - 1, 2 * pos + 1, bu + 1 + l.nodes) else Shape(0, 0);
            ShapeOf(n, bits, h, pos, bu) == Shape(1 + l.nodes + r.nodes, l.leaves + r.leaves)
  {
  }

  /** Without an error at an inner node there is none below it. */
  lemma ReadsInner(H: PairHash, n: nat, bits: seq<bool>, hashes: seq<Hash>, h: nat, pos: nat, bu: nat, hu: nat, bad: bool)
    requires h > 0 && bu < |bits| && bits[bu] && !Extract(H, n, bits, hashes, h, pos, bu, hu, bad).bad
    ensures var w, l := Extract(H, n, bits, hashes, h, pos, bu, hu, bad), Extract(H, n, bits, hashes, h - 1, 2 * pos, bu + 1, hu, bad);
            && !l.bad
            && if 2 * pos + 1 < CalcTreeWidth(n, h - 1) then
                 var r := Extract(H, n, bits, hashes, h - 1, 2 * pos + 1, l.bitsUsed, l.hashUsed, l.bad);
                 !r.bad && w.bitsUsed == r.bitsUsed && w.hashUsed == r.hashUsed
               else w.bitsUsed == l.bitsUsed && w.hashUsed == l.hashUsed
  {
    var l := Extract(H, n, bits, hashes, h - 1, 2 * pos, bu + 1, hu, bad);
    if 2 * pos + 1 < CalcTreeWidth(n, h - 1) {
      BadStays(H, n, bits, hashes, h - 1, 2 * pos + 1, l.bitsUsed, l.hashUsed, l.bad);
    }
  }

  lemma {:induction false} NodesWithin(n: nat, bits: seq<bool>, h: nat, pos: nat, bu: nat)
    requires bu <= |bits|
    ensures bu + ShapeOf(n, bits, h, pos, bu).nodes <= |bits|
    decreases h
  {
    if bu < |bits| && h > 0 && bits[bu] {
      NodesWithin(n, bits, h - 1, 2 * pos, bu + 1);
      var l := ShapeOf(n, bits, h - 1, 2 * pos, bu + 1);
      NodesWithin(n, bits, h - 1, 2 * pos + 1, bu + 1 + l.nodes);
    }
  }

  lemma AnswerIsWellMade(H: PairHash, n: nat, bits: seq<bool>, hashes: seq<Hash>, bad: bool, h: nat)
    ensures Answer(H, n, bits, hashes, bad, h) != NULL_HASH ==> WellMade(n, bits, hashes, h)
  {
    if !Extract(H, n, bits, hashes, h, 0, 0, 0, bad).bad {
      ReadsByShape(H, n, bits, hashes, h, 0, 0, 0, bad);
      NodesWithin(n, bits, h, 0, 0);
    }
  }

  /** A tree that gets an answer has a hash for every place where reading stops and no other, a bit for every
      node and no more than padding behind them, and is not too large. */
  ghost predicate WellMade(n: nat, bits: seq<bool>, hashes: seq<Hash>, h: nat) {
    var s := ShapeOf(n, bits, h, 0, 0);
    && |hashes| == s.leaves <= n && 0 < n <= 4000000 / 240
    && s.nodes <= |bits| && (s.nodes + 7) / 8 == (|bits| + 7) / 8 && |hashes| <= |bits|
  }

  class PartialMerkleTree {
    var nTransactions: nat
    var vBits: seq<bool>
    var vHash: seq<Hash>
    var fBad: bool

    // The tree for a list of transaction ids and a mask that selects some of them.
    constructor (H: PairHash, txids: seq<Hash>, match_: seq<bool>)
      requires |txids| == |match_| > 0
      ensures nTransactions == |txids| && !fBad
      ensures forall h :: IsHeight(|txids|, h) ==> InTree(|txids|, h, 0) && vBits == Bits(match_, h, 0) && vHash == Hashes(H, txids, match_, h, 0)
    {
      var h := TreeHeight(|txids|);
      assert First(h, 0) == 0;
      var bits, hashes := TraverseAndBuild(H, h, 0, txids, match_, [], []);
      nTransactions, vBits, vHash, fBad := |txids|, bits, hashes, false;
      new;
      assert [] + Bits(match_, h, 0) == Bits(match_, h, 0);
      assert [] + Hashes(H, txids, match_, h, 0) == Hashes(H, txids, match_, h, 0);
      forall g | IsHeight(|txids|, g) ensures g == h { }
    }

    // A tree as received: the flag bits come packed in bytes.
    constructor Received(nTransactions: nat, vHash: seq<Hash>, bytes: seq<bv8>)
      ensures this.nTransactions == nTransactions && this.vHash == vHash && !fBad
      ensures |vBits| == 8 * |bytes| && forall p | 0 <= p < |vBits| :: vBits[p] == Bit(bytes[p / 8], p % 8)
    {
      var bits := BytesToBits(bytes);
      this.nTransactions, this.vBits, this.vHash, this.fBad := nTransactions, bits, vHash, false;
    }

    // Only vMatch is cleared before the matches are appended; vnIndex is not.
    method ExtractMatches(H: PairHash, vnIndex: seq<nat>) returns (root: Hash, vMatch: seq<Hash>, indices: seq<nat>, ghost h: nat)
      modifies this`fBad
      ensures IsHeight(nTransactions, h)
      ensures root == Answer(H, nTransactions, vBits, vHash, old(fBad), h)
      ensures root != NULL_HASH ==> !fBad && WellMade(nTransactions, vBits, vHash, h)
      ensures Plausible(nTransactions, vBits, vHash) ==>
                var w := Extract(H, nTransactions, vBits, vHash, h, 0, 0, 0, old(fBad));
                vMatch == w.matches && indices == vnIndex + w.indices && fBad == w.bad
      ensures !Plausible(nTransactions, vBits, vHash) ==> vMatch == [] && indices == vnIndex && fBad == old(fBad)
    {
      root, vMatch, indices := NULL_HASH, [], vnIndex;
      var height := TreeHeight(nTransactions);
      h := height;
      if !Plausible(nTransactions, vBits, vHash) {
        return;
      }
      var bu, hu, hash;
      bu, hu, fBad, vMatch, indices, hash := TraverseAndExtract(H, nTransactions, vBits, vHash, height, 0, 0, 0, fBad, [], vnIndex);
      assert [] + vMatch == vMatch;
      if !fBad { AnswerIsWellMade(H, nTransactions, vBits, vHash, old(fBad), h); }
      if !fBad && (bu + 7) / 8 == (|vBits| + 7) / 8 && hu == |vHash| {
        root := hash;
      }
    }
  }

  /** Authentication: if any tree at all, read for a list of that length, answers with the true
      and non-null root, every match it gives is the id really at its position, unless a pair
      hashed while reading collides with a pair of the true tree. */
  lemma Authentication(H: PairHash, txids: seq<Hash>, bits: seq<bool>, hashes: seq<Hash>, bad: bool, h: nat)
    requires IsHeight(|txids|, h) && |txids| > 0 && InTree(|txids|, h, 0)
    requires Answer(H, |txids|, bits, hashes, bad, h) == CalcHash(H, txids, h, 0) != NULL_HASH
    ensures || Genuine(txids, Extract(H, |txids|, bits, hashes, h, 0, 0, 0, bad))
            || Collides(H, WalkPairs(H, |txids|, bits, hashes, h, 0, 0, 0, bad), TreePairs(H, txids, h, 0))
  {
    var s, t := WalkPairs(H, |txids|, bits, hashes, h, 0, 0, 0, bad), TreePairs(H, txids, h, 0);
    if !Collides(H, s, t) {
      SubtreeIsGenuine(H, txids, bits, hashes, h, 0, 0, 0, bad, s, t);
    }
  }

  /** Completeness: the encoding of any mask, with its bits padded to bytes, answers with the true
      root and gives exactly the matched ids, in order, as long as no two children read are twins. */
  lemma Completeness(H: PairHash, txids: seq<Hash>, match_: seq<bool>, bits: seq<bool>, hashes: seq<Hash>, h: nat)
    requires |txids| == |match_| && 0 < |txids| <= MAX_BLOCK_WEIGHT / MIN_TRANSACTION_WEIGHT
    requires IsHeight(|txids|, h) && InTree(|txids|, h, 0) && NoTwins(H, txids, match_, h, 0)
    requires At(bits, 0, Bits(match_, h, 0)) && (|Bits(match_, h, 0)| + 7) / 8 == (|bits| + 7) / 8
    requires hashes == Hashes(H, txids, match_, h, 0)
    ensures Plausible(|txids|, bits, hashes) && Answer(H, |txids|, bits, hashes, false, h) == CalcHash(H, txids, h, 0)
    ensures forall k | 0 <= k < |Matched(match_, 0, |match_|)| :: Matched(match_, 0, |match_|)[k] < |txids|
    ensures var w := Extract(H, |txids|, bits, hashes, h, 0, 0, 0, false);
            w.indices == Matched(match_, 0, |match_|) && w.matches == TxidsAt(txids, Matched(match_, 0, |match_|))
    ensures |hashes| <= |txids| && |hashes| <= 1 + |Matched(match_, 0, |match_|)| * h
  {
    var n := |txids|;
    WidthMeaning(n, h, 1);
    assert First(h, 0) == 0 && End(n, h, 0) == n;
    HashCount(H, txids, match_, h, 0);
    MatchedNone(match_, 0, n);
    ReadsBack(H, txids, match_, h, 0, bits, hashes, 0, 0);
  }

  /** Otherwise the answer is null, so the condition of Completeness is exact. */
  lemma TwinsRefused(H: PairHash, txids: seq<Hash>, match_: seq<bool>, bits: seq<bool>, h: nat)
    requires |txids| == |match_| && InTree(|txids|, h, 0) && !NoTwins(H, txids, match_, h, 0) && At(bits, 0, Bits(match_, h, 0))
    ensures Answer(H, |txids|, bits, Hashes(H, txids, match_, h, 0), false, h) == NULL_HASH
  {
    TwinsAreBad(H, txids, match_, h, 0, bits, Hashes(H, txids, match_, h, 0), 0, 0);
  }

  /** The answer for distinct ids, all of which are found, unless pairs of the tree collide. */
  ghost predicate AllFound(H: PairHash, txids: seq<Hash>, match_: seq<bool>, h: nat, root: Hash, vMatch: seq<Hash>, indices: seq<nat>)
    requires InTree(|txids|, h, 0)
  {
    && root == CalcHash(H, txids, h, 0) && indices == Matched(match_, 0, |match_|) && |vMatch| == |indices|
    && forall k | 0 <= k < |indices| :: indices[k] < |txids| && vMatch[k] == txids[indices[k]]
  }

  // Building a tree, sending it and extracting the matches.
  method RoundTrip(H: PairHash, txids: seq<Hash>, match_: seq<bool>) returns (root: Hash, vMatch: seq<Hash>, indices: seq<nat>, ghost h: nat)
    requires Distinct(txids) && |txids| == |match_| && 0 < |txids| <= MAX_BLOCK_WEIGHT / MIN_TRANSACTION_WEIGHT
    ensures IsHeight(|txids|, h) && InTree(|txids|, h, 0)
    ensures || AllFound(H, txids, match_, h, root, vMatch, indices)
            || Collides(H, TreePairs(H, txids, h, 0), TreePairs(H, txids, h, 0))
  {
    var received := Transmit(H, txids, match_);
    ghost var bits, hashes := received.vBits, received.vHash;
    root, vMatch, indices, h := received.ExtractMatches(H, []);
    assert First(h, 0) == 0;
    ghost var t := TreePairs(H, txids, h, 0);
    if !Collides(H, t, t) {
      DistinctNoTwins(H, txids, match_, h, 0, t);
      Completeness(H, txids, match_, bits, hashes, h);
      assert [] + Matched(match_, 0, |match_|) == Matched(match_, 0, |match_|);
    }
  }

  // Builds a tree and sends it with its bits packed in bytes.
  method Transmit(H: PairHash, txids: seq<Hash>, match_: seq<bool>) returns (received: PartialMerkleTree)
    requires |txids| == |match_| > 0
    ensures fresh(received) && received.nTransactions == |txids| && !received.fBad
    ensures forall h | IsHeight(|txids|, h) ::
              && InTree(|txids|, h, 0) && received.vHash == Hashes(H, txids, match_, h, 0)
              && At(received.vBits, 0, Bits(match_, h, 0)) && (|Bits(match_, h, 0)| + 7) / 8 == (|received.vBits| + 7) / 8
  {
    var sent := new PartialMerkleTree(H, txids, match_);
    var bytes := BitsToBytes(sent.vBits);
    received := new PartialMerkleTree.Received(sent.nTransactions, sent.vHash, bytes);
    assert At(received.vBits, 0, sent.vBits);
  }
}
