/** Single bits of a byte. */
module BitOps {

  /** 1 << k in a byte. */
  function Mask(k: nat): bv8
    requires k < 8
  {
    if k == 0 then 1 else if k == 1 then 2 else if k == 2 then 4 else if k == 3 then 8
    else if k == 4 then 16 else if k == 5 then 32 else if k == 6 then 64 else 128
  }

  predicate Bit(b: bv8, k: nat)
    requires k < 8
  {
    b & Mask(k) != 0
  }

  lemma SetBit(b: bv8, k: nat, j: nat)
    requires k < 8 && j < 8
    ensures Bit(b | Mask(k), j) == (Bit(b, j) || j == k)
  {
    MaskBits(b, Mask(k), Mask(j));
    assert (Mask(k) & Mask(j) != 0) == (j == k);
  }

  lemma MaskBits(b: bv8, m: bv8, n: bv8)
    ensures ((b | m) & n != 0) == (b & n != 0 || m & n != 0)
  {
  }

  lemma ClearBit(b: bv8, k: nat, j: nat)
    requires k < 8 && j < 8
    ensures Bit(b & !Mask(k), j) == (Bit(b, j) && j != k)
  {
    ClearMasks(b, Mask(k), Mask(j));
    assert (Mask(k) & Mask(j) != 0) == (j == k);
    assert (!Mask(k) & Mask(j) != 0) == (j != k);
  }

  lemma ClearMasks(b: bv8, m: bv8, n: bv8)
    requires !m & n == n || !m & n == 0
    ensures (b & !m) & n == if !m & n == n then b & n else 0
  {
  }
}
