/** Which slots chains get, and that merged-mining proofs honestly built are accepted (src/auxpow.cpp). */
module AuxPowBuild {
  import opened Powers
  import NonLinear
  import opened MerkleBranch
  import opened Sequences
  import opened AuxPow

  // ---------- slots ----------

  lemma SameRest(x: int, y: int, d: int)
    requires d > 0
    ensures x % d == y % d <==> (x - y) % d == 0
  {
    if x % d == y % d {
      DifferenceOfSame(x, y, d);
    } else if (x - y) % d == 0 {
      SameByDifference(x, y, d);
    }
  }

  lemma SameByDifference(x: int, y: int, d: int)
    requires d > 0 && (x - y) % d == 0
    ensures x % d == y % d
  {
    var m := (x - y) / d;
    assert x == y + d * m;
    NonLinear.ModMultiple(y, d, m);
  }

  lemma DifferenceOfSame(x: int, y: int, d: int)
    requires d > 0 && x % d == y % d
    ensures (x - y) % d == 0
  {
    var p, q := x / d, y / d;
    assert x == d * p + x % d && y == d * q + y % d;
    TimesDifference(d, p, q);
    NonLinear.ModMultiple(0, d, p - q);
    NonLinear.ZeroMod(d);
  }

  lemma TimesDifference(d: int, p: int, q: int)
    ensures d * p - d * q == d * (p - q)
  {
  }

  lemma OddTimes(a: int, z: int)
    requires a % 2 == 1 && (a * z) % 2 == 0
    ensures z % 2 == 0
  {
    var b := a / 2;
    assert a * z == 2 * (b * z) + z by {
      assert a == 2 * b + 1;
      NonLinear.Dist(2 * b, 1, z);
      NonLinear.MulAssoc(2, b, z);
    }
  }

  /** An odd factor can be cancelled modulo a power of two. */
  lemma {:induction false} OddCancels(a: int, z: int, h: nat)
    requires a % 2 == 1 && (a * z) % P2(h) == 0
    ensures z % P2(h) == 0
    decreases h
  {
    if h > 0 {
      var d := P2(h - 1);
      var q := a * z / P2(h);
      assert a * z == 2 * (d * q) by { NonLinear.MulAssoc(2, d, q); }
      OddTimes(a, z);
      var w := z / 2;
      assert a * w == d * q by { NonLinear.MulAssoc(a, w, 2); }
      NonLinear.ModMultiple(0, d, q);
      OddCancels(a, w, h - 1);
      var m := w / d;
      assert z == P2(h) * m by { NonLinear.MulAssoc(2, d, m); }
      NonLinear.ModMultiple(0, P2(h), m);
    }
  }

  lemma ScaledSame(u: int, v: int, h: nat)
    ensures (u * 1103515245 + 12345) % P2(h) == (v * 1103515245 + 12345) % P2(h) <==> (u - v) % P2(h) == 0
  {
    var d := P2(h);
    SameRest(u, v, d);
    if (u - v) % d == 0 {
      ModScale(u, v, d);
    }
    if (u * 1103515245 + 12345) % d == (v * 1103515245 + 12345) % d {
      SameRest(u * 1103515245 + 12345, v * 1103515245 + 12345, d);
      assert u * 1103515245 - v * 1103515245 == 1103515245 * (u - v);
      OddCancels(1103515245, u - v, h);
    }
  }

  /** When two chains meet in one slot. */
  lemma SameSlotIff(n: nat, c: int, m: nat, d: int, h: nat)
    ensures ExpectedSlot(n, c, h) == ExpectedSlot(m, d, h) <==> ((n - m) * 1103515245 + (c - d)) % P2(h) == 0
  {
    ScaledSame(n * 1103515245 + 12345 + c, m * 1103515245 + 12345 + d, h);
    assert n * 1103515245 + 12345 + c - (m * 1103515245 + 12345 + d) == (n - m) * 1103515245 + (c - d);
  }

  /** For one nonce, chains share a slot exactly when their numbers agree modulo the size of the tree. */
  lemma ChainsMeet(n: nat, c: int, d: int, h: nat)
    ensures ExpectedSlot(n, c, h) == ExpectedSlot(n, d, h) <==> (c - d) % P2(h) == 0
  {
    SameSlotIff(n, c, n, d, h);
  }

  /** For one chain, nonces that agree modulo the size of the tree give one slot, and no others do: every slot can
      be reached. */
  lemma NoncesMeet(n: nat, m: nat, c: int, h: nat)
    ensures ExpectedSlot(n, c, h) == ExpectedSlot(m, c, h) <==> (n - m) % P2(h) == 0
  {
    SameSlotIff(n, c, m, c, h);
    ScaledSame(n, m, h);
    SameRest(n * 1103515245 + 12345, m * 1103515245 + 12345, P2(h));
    assert n * 1103515245 + 12345 - (m * 1103515245 + 12345) == (n - m) * 1103515245 + (c - c);
  }

  /** 1103515245 * 4005161829 is one more than a multiple of 2^32. */
  lemma InverseFactor(t: int)
    ensures t * 4005161829 * 1103515245 == t + TWO32 * (1029054899 * t)
  {
  }

  lemma WholeWord(h: nat)
    requires h <= 32
    ensures P2(h) * P2(32 - h) == TWO32
  {
    P2Add(h, 32 - h);
    P2Word();
  }

  lemma P2Word()
    ensures P2(32) == TWO32
  {
    P2Table();
    P2Add(30, 2);
    assert P2(2) == 4;
  }

  /** So a round of the generator can be undone. */
  lemma RoundUndone(s: int, h: nat)
    requires h <= 32
    ensures ((s - 12345) * 4005161829 * 1103515245 + 12345) % P2(h) == s % P2(h)
  {
    var k := 1029054899 * (s - 12345);
    InverseFactor(s - 12345);
    WholeWord(h);
    NonLinear.MulAssoc(P2(h), P2(32 - h), k);
    NonLinear.ModMultiple(s, P2(h), P2(32 - h) * k);
  }

  /** The nonces that bring a chain to a given slot. */
  lemma NonceFor(n: nat, c: int, slot: nat, h: nat)
    requires h <= 32 && slot < P2(h)
    ensures ExpectedSlot(n, c, h) == slot <==> (n - ((slot - 12345) * 4005161829 - c - 12345) * 4005161829) % P2(h) == 0
  {
    var x, y := n * 1103515245 + 12345 + c, (slot - 12345) * 4005161829;
    RoundUndone(slot, h);
    ScaledSame(x, y, h);
    NonLinear.DivMod(slot, P2(h), 0, slot);
    RoundUndone(y - c, h);
    ScaledSame(n, (y - c - 12345) * 4005161829, h);
    SameRest(n * 1103515245 + 12345, y - c, P2(h));
  }

  // ---------- scripts ----------

  /** Four bytes, the lowest first. */
  function Four(n: nat): (s: seq<Byte>)
    requires n < TWO32
    ensures |s| == 4
  {
    [n % 256, n / 256 % 256, n / 65536 % 256, n / 16777216]
  }

  lemma FourReads(s: seq<Byte>, k: nat, n: nat)
    requires n < TWO32 && MatchesAt(s, k, Four(n))
    ensures LE32(s, k) == n
  {
    var f := Four(n);
    assert s[k..k + 4] == f;
    assert s[k] == f[0] && s[k + 1] == f[1] && s[k + 2] == f[2] && s[k + 3] == f[3];
    var a, b := n / 256, n / 65536;
    assert a / 256 == b && b / 256 == n / 16777216;
    assert n == 256 * a + n % 256 && a == 256 * b + a % 256 && b == 256 * (b / 256) + b % 256;
  }

  lemma PartMatches(before: seq<Byte>, part: seq<Byte>, after: seq<Byte>)
    ensures MatchesAt(before + part + after, |before|, part)
  {
    assert (before + part + after)[|before|..|before| + |part|] == part;
  }

  /** What a miner of several chains writes into the coinbase. */
  ghost function Commitment(root: Digest, h: nat, nonce: nat): seq<Byte>
    requires P2(h) < TWO32 && nonce < TWO32
  {
    Reversed(root) + Four(P2(h)) + Four(nonce)
  }

  lemma CommitmentParts(before: seq<Byte>, root: Digest, h: nat, nonce: nat, after: seq<Byte>)
    requires P2(h) < TWO32 && nonce < TWO32
    ensures var s, k := before + Commitment(root, h, nonce) + after, |before|;
            && MatchesAt(s, k, Reversed(root)) && k + 40 <= |s| && LE32(s, k + 32) == P2(h) && LE32(s, k + 36) == nonce
  {
    var rev, size, last := Reversed(root), Four(P2(h)), Four(nonce);
    var s := before + Commitment(root, h, nonce) + after;
    assert s == before + rev + (size + last + after);
    PartMatches(before, rev, size + last + after);
    assert s == (before + rev) + size + (last + after);
    PartMatches(before + rev, size, last + after);
    FourReads(s, |before| + 32, P2(h));
    assert s == (before + rev + size) + last + after;
    PartMatches(before + rev + size, last, after);
    FourReads(s, |before| + 36, nonce);
  }

  // ---------- completeness ----------

  /** The coinbase is the first leaf of the parent block, the child the leaf of its chain's slot in the tree of
      chains, and both branches are those of the trees. */
  ghost predicate Honest(H: PairHash, p: Proof, child: Digest, nChainId: int, strict: bool, parent: seq<seq<Digest>>, chains: seq<seq<Digest>>,
                         nonce: nat)
  {
    && !(strict && p.parentBlock.chainId == nChainId) && (p.hashBlock == ZERO || p.hashBlock == p.parentBlock.hash)
    && p.coinbaseTx.Some? && p.coinbaseTx.value.isCoinBase && p.nIndex == 0
    && IsTree(H, parent) && |parent| <= 31 && |parent[0]| > 0 && parent[0][0] == p.coinbaseTx.value.hash
    && p.vMerkleBranch == BranchOf(H, parent, 0) && p.parentBlock.hashMerkleRoot == TreeRoot(H, parent)
    && IsTree(H, chains) && |chains| <= 31 && nonce < TWO32
    && p.nChainIndex == ExpectedSlot(nonce, nChainId, |chains| - 1) < |chains[0]| && chains[0][p.nChainIndex] == child
    && p.vChainMerkleBranch == BranchOf(H, chains, p.nChainIndex)
  }

  lemma ParentRoot(H: PairHash, p: Proof, leaf: Digest, parent: seq<seq<Digest>>)
    requires IsTree(H, parent) && |parent[0]| > 0 && parent[0][0] == leaf
    requires p.vMerkleBranch == BranchOf(H, parent, 0) && p.parentBlock.hashMerkleRoot == TreeRoot(H, parent)
    ensures BranchRoot(H, leaf, p.vMerkleBranch, 0) == p.parentBlock.hashMerkleRoot && |p.vMerkleBranch| == |parent| - 1
  {
    BranchComplete(H, parent, 0);
  }

  lemma ChainsRoot(H: PairHash, p: Proof, child: Digest, chains: seq<seq<Digest>>)
    requires IsTree(H, chains) && |chains| <= 31 && 0 <= p.nChainIndex < |chains[0]| && chains[0][p.nChainIndex] == child
    requires p.vChainMerkleBranch == BranchOf(H, chains, p.nChainIndex)
    ensures ChainRoot(H, p, child) == TreeRoot(H, chains) && |p.vChainMerkleBranch| == |chains| - 1
  {
    BranchComplete(H, chains, p.nChainIndex);
  }

  /** Of an honest proof only the script is left to be checked. */
  lemma OnlyTheScript(H: PairHash, p: Proof, child: Digest, nChainId: int, strict: bool, parent: seq<seq<Digest>>, chains: seq<seq<Digest>>, nonce: nat)
    requires Honest(H, p, child, nChainId, strict, parent, chains, nonce)
    requires MIN_COINBASE_SCRIPTSIG_SIZE <= |p.coinbaseTx.value.scriptSig| <= MAX_COINBASE_SCRIPTSIG_SIZE
    ensures |p.vChainMerkleBranch| == |chains| - 1
    ensures Accepts(H, p, child, nChainId, strict) <==> Commits(p.coinbaseTx.value.scriptSig, Reversed(TreeRoot(H, chains)), p, nChainId)
  {
    ParentRoot(H, p, p.coinbaseTx.value.hash, parent);
    ChainsRoot(H, p, child, chains);
  }

  /** An honest proof with the header in front of the commitment is accepted, if and only if the header occurs
      nowhere else in the script and the root does not begin any earlier. */
  lemma HonestAccepted(H: PairHash, p: Proof, child: Digest, nChainId: int, strict: bool, parent: seq<seq<Digest>>, chains: seq<seq<Digest>>,
                       nonce: nat, before: seq<Byte>, after: seq<Byte>)
    requires Honest(H, p, child, nChainId, strict, parent, chains, nonce) && P2(|chains| - 1) < TWO32
    requires p.coinbaseTx.value.scriptSig ==
             before + MERGED_MINING_HEADER + Commitment(TreeRoot(H, chains), |chains| - 1, nonce) + after
    requires |p.coinbaseTx.value.scriptSig| <= MAX_COINBASE_SCRIPTSIG_SIZE
    ensures Accepts(H, p, child, nChainId, strict) <==> Unmistakable(p.coinbaseTx.value.scriptSig, Reversed(TreeRoot(H, chains)), |before|)
  {
    var root, h := TreeRoot(H, chains), |chains| - 1;
    OnlyTheScript(H, p, child, nChainId, strict, parent, chains, nonce);
    HeaderParts(before, root, h, nonce, after);
    CommitsWhen(p.coinbaseTx.value.scriptSig, Reversed(root), p, nChainId, |before|, nonce);
  }

  /** The header is at b only, and the root nowhere before b + 4. */
  ghost predicate Unmistakable(script: seq<Byte>, rev: seq<Byte>, b: nat) {
    && (forall j: nat | j != b :: !MatchesAt(script, j, MERGED_MINING_HEADER))
    && (forall j: nat | j < b + 4 :: !MatchesAt(script, j, rev))
  }

  lemma HeaderParts(before: seq<Byte>, root: Digest, h: nat, nonce: nat, after: seq<Byte>)
    requires P2(h) < TWO32 && nonce < TWO32
    ensures var s, b := before + MERGED_MINING_HEADER + Commitment(root, h, nonce) + after, |before|;
            && MatchesAt(s, b, MERGED_MINING_HEADER) && MatchesAt(s, b + 4, Reversed(root)) && b + 44 <= |s|
            && LE32(s, b + 36) == P2(h) && LE32(s, b + 40) == nonce
  {
    CommitmentParts(before + MERGED_MINING_HEADER, root, h, nonce, after);
    var s := before + MERGED_MINING_HEADER + Commitment(root, h, nonce) + after;
    assert s == before + MERGED_MINING_HEADER + (Commitment(root, h, nonce) + after);
    PartMatches(before, MERGED_MINING_HEADER, Commitment(root, h, nonce) + after);
  }

  lemma CommitsWhen(script: seq<Byte>, rev: seq<Byte>, p: Proof, nChainId: int, b: nat, nonce: nat)
    requires |rev| == 32 && MatchesAt(script, b, MERGED_MINING_HEADER) && MatchesAt(script, b + 4, rev) && b + 44 <= |script|
    requires LE32(script, b + 36) == P2(|p.vChainMerkleBranch|) && LE32(script, b + 40) == nonce
    requires p.nChainIndex == ExpectedSlot(nonce, nChainId, |p.vChainMerkleBranch|)
    ensures Commits(script, rev, p, nChainId) <==> Unmistakable(script, rev, b)
  {
    assert SlotOk(script, b + 4 + |rev|, p, nChainId);
    if Commits(script, rev, p, nChainId) {
      var k: nat :| CommitsAt(script, rev, k) && SlotOk(script, k + |rev|, p, nChainId);
      assert HasHeader(script) && OnlyHeader(script, k - 4);
    }
    if Unmistakable(script, rev, b) {
      assert OnlyHeader(script, b) && IsFirst(script, rev, 0, b + 4);
      assert CommitsAt(script, rev, b + 4);
    }
  }

  // ---------- the minimal proof ----------

  // createAuxPow: the child alone in its tree, and the coinbase alone in its block; `txid` hashes the coinbase
  // with a script, and `hash` the parent block with a Merkle root
  method CreateAuxPow(blockHash: Digest, txid: seq<Byte> -> Digest, hash: Digest -> Digest) returns (p: Proof)
    ensures p.coinbaseTx.Some? && p.coinbaseTx.value == Coinbase(true, txid(MinimalScript(blockHash)), MinimalScript(blockHash))
    ensures p.vMerkleBranch == p.vChainMerkleBranch == [] && p.nIndex == p.nChainIndex == 0 && p.hashBlock == ZERO
    ensures p.parentBlock == Header(0, hash(p.coinbaseTx.value.hash), p.coinbaseTx.value.hash)
  {
    var inputData: seq<Byte> := Reversed(blockHash);
    inputData := inputData + [1];
    inputData := inputData + [0, 0, 0, 0, 0, 0, 0];
    // pushing up to 75 bytes onto a script writes their number first
    var script: seq<Byte> := [|inputData|] + inputData;
    assert script == MinimalScript(blockHash);
    var root := txid(script);
    p := Proof(Some(Coinbase(true, root, script)), ZERO, [], [], 0, 0, Header(0, hash(root), root));
  }

  ghost function MinimalScript(blockHash: Digest): seq<Byte> {
    [40] + Reversed(blockHash) + [1, 0, 0, 0] + [0, 0, 0, 0]
  }

  lemma MinimalParts(blockHash: Digest)
    ensures var s := MinimalScript(blockHash);
            && |s| == 41 && MatchesAt(s, 1, Reversed(blockHash)) && LE32(s, 33) == 1 && LE32(s, 37) == 0 && s[0] == 40
  {
    var s, rev := MinimalScript(blockHash), Reversed(blockHash);
    assert s == [40] + rev + ([1, 0, 0, 0] + [0, 0, 0, 0]);
    PartMatches([40], rev, [1, 0, 0, 0] + [0, 0, 0, 0]);
  }

  /** The minimal proof is accepted, unless the parent's chain number forbids it, for every block hash that neither
      holds the header's bytes nor consists of bytes 40 only. */
  lemma MinimalAccepted(H: PairHash, blockHash: Digest, p: Proof, txid: seq<Byte> -> Digest, hash: Digest -> Digest, nChainId: int, strict: bool)
    requires p.coinbaseTx.Some? && p.coinbaseTx.value == Coinbase(true, txid(MinimalScript(blockHash)), MinimalScript(blockHash))
    requires p.vMerkleBranch == p.vChainMerkleBranch == [] && p.nIndex == p.nChainIndex == 0 && p.hashBlock == ZERO
    requires p.parentBlock == Header(0, hash(p.coinbaseTx.value.hash), p.coinbaseTx.value.hash)
    ensures Accepts(H, p, blockHash, nChainId, strict) <==>
            && !(strict && nChainId == 0)
            && !HasHeader(MinimalScript(blockHash))
            && !(forall i | 0 <= i < 32 :: blockHash[i] == 40)
  {
    var s, rev := MinimalScript(blockHash), Reversed(blockHash);
    MinimalParts(blockHash);
    assert ExpectedSlot(0, nChainId, 0) == 0;
    assert ChainRoot(H, p, blockHash) == blockHash;
    assert MatchesAt(s, 0, rev) <==> forall i | 0 <= i < 32 :: blockHash[i] == 40 by { AllForty(blockHash); }
    MinimalCommits(s, rev, p, nChainId);
  }

  lemma {:induction false} FortyUpTo(s: seq<Byte>, rev: seq<Byte>, i: nat)
    requires |rev| == 32 && |s| >= 33 && s[0] == 40 && MatchesAt(s, 0, rev) && MatchesAt(s, 1, rev) && i < 32
    ensures rev[i] == 40
    decreases i
  {
    assert s[0..32] == rev && s[1..33] == rev;
    if i > 0 {
      FortyUpTo(s, rev, i - 1);
      assert s[i] == rev[i] && s[1 + (i - 1)] == rev[i - 1];
    }
  }

  lemma AllForty(blockHash: Digest)
    ensures MatchesAt(MinimalScript(blockHash), 0, Reversed(blockHash)) <==> forall i | 0 <= i < 32 :: blockHash[i] == 40
  {
    var s, rev := MinimalScript(blockHash), Reversed(blockHash);
    MinimalParts(blockHash);
    if MatchesAt(s, 0, rev) {
      forall i | 0 <= i < 32 ensures blockHash[i] == 40 {
        FortyUpTo(s, rev, 31 - i);
        assert rev[31 - i] == blockHash[i];
      }
    }
    if forall i | 0 <= i < 32 :: blockHash[i] == 40 {
      forall i | 0 <= i < 32 ensures s[i] == rev[i] {
        assert rev[i] == blockHash[31 - i];
        if i > 0 { assert s[1..33][i - 1] == rev[i - 1] == blockHash[32 - i]; }
      }
      assert s[0..32] == rev;
    }
  }

  lemma MinimalCommits(s: seq<Byte>, rev: seq<Byte>, p: Proof, nChainId: int)
    requires |s| == 41 && |rev| == 32 && MatchesAt(s, 1, rev) && LE32(s, 33) == 1 && LE32(s, 37) == 0
    requires p.vChainMerkleBranch == [] && p.nChainIndex == 0
    ensures Commits(s, rev, p, nChainId) <==> !HasHeader(s) && !MatchesAt(s, 0, rev)
  {
    assert P2(0) == 1 && ExpectedSlot(0, nChainId, 0) == 0;
    assert SlotOk(s, 33, p, nChainId);
    if Commits(s, rev, p, nChainId) {
      var k: nat :| CommitsAt(s, rev, k) && SlotOk(s, k + |rev|, p, nChainId);
      assert k <= 1;
      if k == 0 {
        assert LE32(s, 32) == 1;
        LittleAfter(s);
      }
    }
    if !HasHeader(s) && !MatchesAt(s, 0, rev) {
      assert IsFirst(s, rev, 0, 1);
      assert CommitsAt(s, rev, 1);
    }
  }

  /** The size, read one byte too early, is not 1. */
  lemma LittleAfter(s: seq<Byte>)
    requires |s| == 41 && LE32(s, 33) == 1
    ensures LE32(s, 32) != 1
  {
    var a: int, b: int, c: int, d: int, e: int := s[32], s[33], s[34], s[35], s[36];
  }
}
