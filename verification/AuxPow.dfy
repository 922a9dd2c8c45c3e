/** Merged-mining proofs (src/auxpow.h, src/auxpow.cpp). */
module AuxPow {
  import opened Powers
  import NonLinear
  import opened MerkleBranch
  import opened Sequences

  type Byte = x: int | 0 <= x < 256
  type Digest = d: seq<Byte> | |d| == DIGEST_SIZE witness ZERO
  type PairHash = (Digest, Digest) -> Digest

  const DIGEST_SIZE := 32
  const ZERO: seq<Byte> :=
    [0, 0, 0, 0, 0, 0, 0, 0, 0, 0, 0, 0, 0, 0, 0, 0, 0, 0, 0, 0, 0, 0, 0, 0, 0, 0, 0, 0, 0, 0, 0, 0]
  const MIN_COINBASE_SCRIPTSIG_SIZE := 2
  const MAX_COINBASE_SCRIPTSIG_SIZE := 100
  const MAX_AUXPOW_MERKLE_BRANCH_LENGTH := 30
  const MERGED_MINING_HEADER: seq<Byte> := [0xfa, 0xbe, 0x6d, 0x6d]
  const TWO32 := 0x1_0000_0000
  const TWO64 := 0x1_0000_0000_0000_0000

  // CheckMerkleBranch; the arithmetic shift of a signed index is the division rounding down
  method CheckMerkleBranch(H: PairHash, leaf: Digest, branch: seq<Digest>, nIndex: int) returns (hash: Digest)
    ensures hash == if nIndex == -1 then ZERO else BranchRoot(H, leaf, branch, nIndex)
  {
    if nIndex == -1 {
      return ZERO;
    }
    hash := leaf;
    var index := nIndex;
    for k := 0 to |branch|
      invariant BranchRoot(H, hash, branch[k..], index) == BranchRoot(H, leaf, branch, nIndex)
    {
      assert branch[k..][1..] == branch[k + 1..];
      hash := Climb(H, hash, branch[k], index);
      index := index / 2;
    }
  }

  // ---------- numbers in the coinbase script ----------

  function Num(b: Byte): int { b }

  /** The little-endian number in the four bytes at k. */
  function LE32(s: seq<Byte>, k: nat): (r: nat)
    requires k + 4 <= |s|
    ensures r < TWO32
  {
    Num(s[k]) + 0x100 * Num(s[k + 1]) + 0x1_0000 * Num(s[k + 2]) + 0x100_0000 * Num(s[k + 3])
  }

  lemma ShiftInByte(n: nat, b: nat, t: nat)
    requires n < 0x100_0000 && P2(t) == 256 && b < 256
    ensures Or(n * 256 % TWO32, b) == 256 * n + b
  {
    OrLow(n, b, t, n * 256 % TWO32);
  }

  method DecodeLE32(s: seq<Byte>, k: nat) returns (res: nat)
    requires k + 4 <= |s|
    ensures res == LE32(s, k)
  {
    P2Eight();
    res := 0;
    ghost var b1: int, b2: int, b3: int := s[k + 1], s[k + 2], s[k + 3];
    for i := 0 to 4
      invariant i == 0 ==> res == 0
      invariant i == 1 ==> res == b3
      invariant i == 2 ==> res == 0x100 * b3 + b2
      invariant i == 3 ==> res == 0x1_0000 * b3 + 0x100 * b2 + b1
      invariant i == 4 ==> res == LE32(s, k)
    {
      ShiftInByte(res, s[k + 3 - i], 8);
      res := Or(res * 256 % TWO32, s[k + 3 - i]);
    }
  }

  /** The slot a chain must use: two rounds of a linear congruential generator, in the integers. */
  function ExpectedSlot(nNonce: nat, nChainId: int, h: nat): (r: nat)
    ensures r < P2(h)
  {
    ((nNonce * 1103515245 + 12345 + nChainId) * 1103515245 + 12345) % P2(h)
  }

  lemma ModScale(u: int, v: int, d: int)
    requires d > 0 && u % d == v % d
    ensures (u * 1103515245 + 12345) % d == (v * 1103515245 + 12345) % d
  {
    var q := u / d - v / d;
    assert u == v + d * q by { NonLinear.Dist(u / d, -(v / d), d); }
    var m := 1103515245 * q;
    assert u * 1103515245 + 12345 == v * 1103515245 + 12345 + d * m by {
      NonLinear.Dist(v, d * q, 1103515245);
      NonLinear.MulAssoc(d, q, 1103515245);
    }
    NonLinear.ModMultiple(v * 1103515245 + 12345, d, m);
  }

  /** Wrapping at 2^64 does not show modulo a power of two that divides it. */
  lemma WrapHidden(n: int, d: int, c: int)
    requires d > 0 && d * c == TWO64
    ensures n % TWO64 % d == n % d
  {
    var q := n / TWO64;
    assert n == n % TWO64 + d * (c * q) by { NonLinear.MulAssoc(d, c, q); }
    NonLinear.ModMultiple(n % TWO64, d, c * q);
  }

  lemma P2Divides(h: nat)
    requires h <= MAX_AUXPOW_MERKLE_BRANCH_LENGTH
    ensures P2(h) * P2(64 - h) == TWO64 && P2(h) <= P2(30) == 0x4000_0000
  {
    P2Add(h, 64 - h);
    P2Mono(h, 30);
    P2Table();
  }

  lemma P2Table()
    ensures P2(30) == 0x4000_0000 && P2(64) == TWO64
  {
    assert P2(5) == 32;
    P2Add(5, 5);
    P2Add(10, 10);
    P2Add(20, 10);
    assert P2(2) == 4;
    P2Add(30, 2);
    P2Add(32, 32);
  }

  // getExpectedIndex, with the 64-bit wrap-around written out
  method GetExpectedIndex(nNonce: nat, nChainId: int, h: nat) returns (index: nat)
    requires nNonce < TWO32 && -0x8000_0000 <= nChainId < 0x8000_0000 && h <= MAX_AUXPOW_MERKLE_BRANCH_LENGTH
    ensures index == ExpectedSlot(nNonce, nChainId, h) < 0x4000_0000
  {
    P2Divides(h);
    ghost var c := P2(64 - h);
    var mod := P2(h);
    var rand := nNonce;
    rand := (rand * 1103515245 + 12345) % TWO64;
    ghost var first := nNonce * 1103515245 + 12345;
    WrapHidden(first, mod, c);
    rand := rand % mod;
    NonLinear.ModAdd(first, nChainId, mod);
    ghost var second := rand + nChainId;
    rand := (rand + nChainId) % TWO64;
    WrapHidden(second, mod, c);
    ModScale(rand, first + nChainId, mod);
    WrapHidden(rand * 1103515245 + 12345, mod, c);
    rand := (rand * 1103515245 + 12345) % TWO64;
    index := rand % mod;
  }

  // ---------- searching the script ----------

  predicate MatchesAt(s: seq<Byte>, k: nat, p: seq<Byte>) {
    k + |p| <= |s| && s[k..k + |p|] == p
  }

  /** k is where p first occurs in s at or after from, or |s| when it does not. */
  ghost predicate IsFirst(s: seq<Byte>, p: seq<Byte>, from: nat, k: nat) {
    && (k == |s| || (from <= k < |s| && MatchesAt(s, k, p)))
    && forall j | from <= j < k :: !MatchesAt(s, j, p)
  }

  // std::search
  method Search(s: seq<Byte>, p: seq<Byte>, from: nat) returns (k: nat)
    requires from <= |s| && p != []
    ensures IsFirst(s, p, from, k)
  {
    k := from;
    while k < |s| && !MatchesAt(s, k, p)
      invariant from <= k <= |s| && forall j | from <= j < k :: !MatchesAt(s, j, p)
    {
      k := k + 1;
    }
  }

  // ---------- the proof ----------

  datatype Coinbase = Coinbase(isCoinBase: bool, hash: Digest, scriptSig: seq<Byte>)
  datatype Header = Header(chainId: int, hash: Digest, hashMerkleRoot: Digest)
  datatype Proof = Proof(coinbaseTx: Option<Coinbase>, hashBlock: Digest, vMerkleBranch: seq<Digest>,
                         vChainMerkleBranch: seq<Digest>, nIndex: int, nChainIndex: int, parentBlock: Header)

  lemma ReversedInjective(a: seq<Byte>, b: seq<Byte>)
    requires Reversed(a) == Reversed(b)
    ensures a == b
  {
    ReversedTwice(a);
    ReversedTwice(b);
  }

  /** The root of the tree of chains the child block claims a place in. */
  ghost function ChainRoot(H: PairHash, p: Proof, child: Digest): Digest {
    if p.nChainIndex == -1 then ZERO else BranchRoot(H, child, p.vChainMerkleBranch, p.nChainIndex)
  }

  /** The pairs hashed for that root. */
  ghost function ChainPairs(H: PairHash, p: Proof, child: Digest): set<(Digest, Digest)> {
    ClimbPairs(H, child, p.vChainMerkleBranch, p.nChainIndex)
  }

  /** What follows the root in the script: the size of that tree, and a nonce that picks the slot. */
  ghost predicate SlotOk(script: seq<Byte>, k: nat, p: Proof, nChainId: int) {
    && k + 8 <= |script|
    && LE32(script, k) == P2(|p.vChainMerkleBranch|)
    && p.nChainIndex == ExpectedSlot(LE32(script, k + 4), nChainId, |p.vChainMerkleBranch|)
  }

  /**
   * The commitment in the script: the root's bytes, most significant first, right behind the only
   * merged-mining header, or without any header within the first 20 bytes.
   */
  ghost predicate Commits(script: seq<Byte>, root: seq<Byte>, p: Proof, nChainId: int) {
    exists k: nat :: CommitsAt(script, root, k) && SlotOk(script, k + |root|, p, nChainId)
  }

  ghost predicate CommitsAt(script: seq<Byte>, root: seq<Byte>, k: nat) {
    && IsFirst(script, root, 0, k) && k < |script|
    && if HasHeader(script) then k >= 4 && OnlyHeader(script, k - 4) else k <= 20
  }

  ghost predicate HasHeader(script: seq<Byte>) {
    exists j: nat :: MatchesAt(script, j, MERGED_MINING_HEADER)
  }

  ghost predicate OnlyHeader(script: seq<Byte>, k: nat) {
    && MatchesAt(script, k, MERGED_MINING_HEADER)
    && forall j: nat :: MatchesAt(script, j, MERGED_MINING_HEADER) ==> j == k
  }

  ghost predicate Accepts(H: PairHash, p: Proof, child: Digest, nChainId: int, strict: bool) {
    && !(strict && p.parentBlock.chainId == nChainId)
    && (p.hashBlock == ZERO || p.hashBlock == p.parentBlock.hash)
    && |p.vMerkleBranch| <= MAX_AUXPOW_MERKLE_BRANCH_LENGTH
    && |p.vChainMerkleBranch| <= MAX_AUXPOW_MERKLE_BRANCH_LENGTH
    && p.coinbaseTx.Some? && p.coinbaseTx.value.isCoinBase
    && MIN_COINBASE_SCRIPTSIG_SIZE <= |p.coinbaseTx.value.scriptSig| <= MAX_COINBASE_SCRIPTSIG_SIZE
    && p.nIndex == 0
    && BranchRoot(H, p.coinbaseTx.value.hash, p.vMerkleBranch, 0) == p.parentBlock.hashMerkleRoot
    && Commits(p.coinbaseTx.value.scriptSig, Reversed(ChainRoot(H, p, child)), p, nChainId)
  }

  // the script part of check
  method CheckScript(script: seq<Byte>, root: seq<Byte>, p: Proof, nChainId: int) returns (ok: bool)
    requires |root| == DIGEST_SIZE && |p.vChainMerkleBranch| <= MAX_AUXPOW_MERKLE_BRANCH_LENGTH
    requires -0x8000_0000 <= nChainId < 0x8000_0000
    ensures ok <==> Commits(script, root, p, nChainId)
  {
    var head := Search(script, MERGED_MINING_HEADER, 0);
    var pc := Search(script, root, 0);
    if pc == |script| {
      return false;
    }
    if head != |script| {
      var second := Search(script, MERGED_MINING_HEADER, head + 1);
      if second != |script| {
        return false;
      }
      if head + 4 != pc {
        return false;
      }
    } else if pc > 20 {
      return false;
    }
    assert CommitsAt(script, root, pc);
    pc := pc + |root|;
    if |script| - pc < 8 {
      return false;
    }
    var nSize := DecodeLE32(script, pc);
    var merkleHeight := |p.vChainMerkleBranch|;
    if nSize != P2(merkleHeight) {
      return false;
    }
    var nNonce := DecodeLE32(script, pc + 4);
    var expected := GetExpectedIndex(nNonce, nChainId, merkleHeight);
    if p.nChainIndex != expected {
      return false;
    }
    return true;
  }

  // CAuxPow::check
  method Check(H: PairHash, p: Proof, child: Digest, nChainId: int, fStrictChainId: bool) returns (ok: bool)
    requires -0x8000_0000 <= nChainId < 0x8000_0000
    ensures ok <==> Accepts(H, p, child, nChainId, fStrictChainId)
  {
    if fStrictChainId && p.parentBlock.chainId == nChainId {
      return false;
    }
    if p.hashBlock != ZERO && p.hashBlock != p.parentBlock.hash {
      return false;
    }
    if |p.vMerkleBranch| > MAX_AUXPOW_MERKLE_BRANCH_LENGTH ||
       |p.vChainMerkleBranch| > MAX_AUXPOW_MERKLE_BRANCH_LENGTH
    {
      return false;
    }
    var nRootHash := CheckMerkleBranch(H, child, p.vChainMerkleBranch, p.nChainIndex);
    var vchRootHash := Reversed(nRootHash);
    if p.coinbaseTx.None? || !p.coinbaseTx.value.isCoinBase {
      return false;
    }
    var script := p.coinbaseTx.value.scriptSig;
    if |script| < MIN_COINBASE_SCRIPTSIG_SIZE || |script| > MAX_COINBASE_SCRIPTSIG_SIZE {
      return false;
    }
    if p.nIndex != 0 {
      return false;
    }
    var parentRoot := CheckMerkleBranch(H, p.coinbaseTx.value.hash, p.vMerkleBranch, p.nIndex);
    if parentRoot != p.parentBlock.hashMerkleRoot {
      return false;
    }
    ok := CheckScript(script, vchRootHash, p, nChainId);
  }

  // ---------- what acceptance means ----------

  /** The bytes behind the one header fix the root, the height of the tree and the slot. */
  lemma ScriptBinds(script: seq<Byte>, r1: seq<Byte>, r2: seq<Byte>, p1: Proof, p2: Proof, nChainId: int)
    requires |r1| == |r2| && HasHeader(script)
    requires Commits(script, r1, p1, nChainId) && Commits(script, r2, p2, nChainId)
    ensures r1 == r2
    ensures |p1.vChainMerkleBranch| == |p2.vChainMerkleBranch| && p1.nChainIndex == p2.nChainIndex
  {
    var k1: nat :| CommitsAt(script, r1, k1) && SlotOk(script, k1 + |r1|, p1, nChainId);
    var k2: nat :| CommitsAt(script, r2, k2) && SlotOk(script, k2 + |r2|, p2, nChainId);
    assert k1 == k2;
    P2Injective(|p1.vChainMerkleBranch|, |p2.vChainMerkleBranch|);
  }

  /**
   * One coinbase script with the merged-mining header commits to one child block per chain: no two
   * proofs accepted for a chain id can use it for different blocks, or with different branches,
   * unless a pair hashed for one of them collides with a pair hashed for the other.
   */
  lemma OneChildPerScript(H: PairHash, p1: Proof, p2: Proof, c1: Digest, c2: Digest, nChainId: int, s1: bool, s2: bool)
    requires Accepts(H, p1, c1, nChainId, s1) && Accepts(H, p2, c2, nChainId, s2)
    requires p1.coinbaseTx.value.scriptSig == p2.coinbaseTx.value.scriptSig
    requires HasHeader(p1.coinbaseTx.value.scriptSig)
    ensures p1.nChainIndex == p2.nChainIndex
    ensures || (c1 == c2 && p1.vChainMerkleBranch == p2.vChainMerkleBranch)
            || Collides(H, ChainPairs(H, p1, c1), ChainPairs(H, p2, c2))
  {
    var r1, r2 := ChainRoot(H, p1, c1), ChainRoot(H, p2, c2);
    ScriptBinds(p1.coinbaseTx.value.scriptSig, Reversed(r1), Reversed(r2), p1, p2, nChainId);
    ReversedInjective(r1, r2);
    SlotIsNotMinusOne(p1.coinbaseTx.value.scriptSig, Reversed(r1), p1, nChainId);
    BranchBinds(H, c1, c2, p1.vChainMerkleBranch, p2.vChainMerkleBranch, p1.nChainIndex);
  }

  /** The escape of CheckMerkleBranch for index -1 is closed for an accepted proof. */
  lemma SlotIsNotMinusOne(script: seq<Byte>, root: seq<Byte>, p: Proof, nChainId: int)
    requires Commits(script, root, p, nChainId)
    ensures 0 <= p.nChainIndex < P2(|p.vChainMerkleBranch|)
  {
  }

  /** An accepted proof's coinbase is the first leaf of any full tree with the parent's Merkle root,
      unless a pair hashed for it collides with a pair of that tree. */
  lemma CoinbaseIsFirstLeaf(H: PairHash, p: Proof, child: Digest, nChainId: int, strict: bool, rows: seq<seq<Digest>>)
    requires Accepts(H, p, child, nChainId, strict)
    requires IsTree(H, rows) && |rows| == |p.vMerkleBranch| + 1 && TreeRoot(H, rows) == p.parentBlock.hashMerkleRoot
    ensures |rows[0]| > 0
    ensures || rows[0][0] == p.coinbaseTx.value.hash
            || Collides(H, ClimbPairs(H, p.coinbaseTx.value.hash, p.vMerkleBranch, 0), PathPairs(H, rows, 0))
  {
    LeafCount(H, rows);
    BranchSound(H, rows, p.coinbaseTx.value.hash, p.vMerkleBranch, 0);
  }

  /** In a full tree of chains with the committed root, the child block is the leaf in its chain's slot,
      unless a pair hashed for it collides with a pair of that tree. */
  lemma SlotHoldsChild(H: PairHash, p: Proof, child: Digest, nChainId: int, strict: bool, rows: seq<seq<Digest>>)
    requires Accepts(H, p, child, nChainId, strict)
    requires IsTree(H, rows) && |rows| == |p.vChainMerkleBranch| + 1 && TreeRoot(H, rows) == ChainRoot(H, p, child)
    ensures 0 <= p.nChainIndex < |rows[0]|
    ensures rows[0][p.nChainIndex] == child || Collides(H, ChainPairs(H, p, child), PathPairs(H, rows, p.nChainIndex))
  {
    LeafCount(H, rows);
    SlotIsNotMinusOne(p.coinbaseTx.value.scriptSig, Reversed(ChainRoot(H, p, child)), p, nChainId);
    BranchSound(H, rows, child, p.vChainMerkleBranch, p.nChainIndex);
  }
}
