/** The cuckoo cache (src/cuckoocache.h): displacement insertion with eight locations for every
    element, lazy erasure through collection flags, and ageing by epochs.  The hash functions
    are an arbitrary `H`; accesses are sequential. */
module CuckooCache {
  import NonLinear
  import opened BitOps

  type Element = nat
  // H(e, k) is the k-th 32-bit hash of e.
  type HashFunction = (Element, nat) -> nat

  const LOCATIONS := 8
  const TWO32 := 0x1_0000_0000

  ghost predicate Is32Bit(H: HashFunction) {
    forall e, k | 0 <= k < LOCATIONS :: H(e, k) < TWO32
  }

  /** compute_hashes: the 32-bit hash as a fraction of the table size. */
  function Loc(H: HashFunction, size: nat, e: Element, k: nat): nat {
    H(e, k) * size / TWO32
  }

  lemma LocInTable(H: HashFunction, size: nat, e: Element, k: nat)
    requires Is32Bit(H) && size > 0 && k < LOCATIONS
    ensures Loc(H, size, e, k) < size
  {
    var x, q := H(e, k), Loc(H, size, e, k);
    assert x * size == TWO32 * q + x * size % TWO32;
    NonLinear.MulMono(size, x + 1, TWO32);
    assert size * (x + 1) == x * size + size;
  }

  /** No slot of the table is left out: some 32-bit hash selects it. */
  lemma EverySlotUsed(size: nat, i: nat)
    requires i < size <= TWO32
    ensures exists x: nat :: x < TWO32 && x * size / TWO32 == i
  {
    var x := (i * TWO32 + size - 1) / size;
    var rest := (i * TWO32 + size - 1) % size;
    assert x * size == i * TWO32 + size - 1 - rest;
    NonLinear.MulMono(TWO32, i + 1, size);
    NonLinear.CancelLess(x, TWO32, size);
    NonLinear.DivMod(x * size, TWO32, i, size - 1 - rest);
  }

  /** i is one of the eight locations of e. */
  ghost predicate IsLoc(H: HashFunction, size: nat, e: Element, i: int) {
    exists k | 0 <= k < LOCATIONS :: Loc(H, size, e, k) == i
  }

  // ---------- counting the live entries of the current epoch ----------

  function LiveAt(collectable: bool, recent: bool): int {
    if recent && !collectable then 1 else 0
  }

  ghost function Live(collect: seq<bool>, epoch: seq<bool>): (n: int)
    requires |collect| == |epoch|
    ensures 0 <= n <= |collect|
  {
    if collect == [] then 0 else
      Live(collect[..|collect| - 1], epoch[..|epoch| - 1]) + LiveAt(collect[|collect| - 1], epoch[|epoch| - 1])
  }

  lemma {:induction false} LiveUpdate(collect: seq<bool>, epoch: seq<bool>, i: nat, c: bool, r: bool)
    requires |collect| == |epoch| && i < |collect|
    ensures Live(collect[i := c], epoch[i := r]) == Live(collect, epoch) - LiveAt(collect[i], epoch[i]) + LiveAt(c, r)
    decreases |collect|
  {
    var last := |collect| - 1;
    if i == last {
      assert collect[i := c][..last] == collect[..last] && epoch[i := r][..last] == epoch[..last];
    } else {
      assert collect[i := c][..last] == collect[..last][i := c] && epoch[i := r][..last] == epoch[..last][i := r];
      LiveUpdate(collect[..last], epoch[..last], i, c, r);
    }
  }

  lemma {:induction false} NoneRecent(collect: seq<bool>, epoch: seq<bool>)
    requires |collect| == |epoch| && forall i | 0 <= i < |epoch| :: !epoch[i]
    ensures Live(collect, epoch) == 0
    decreases |collect|
  {
    if collect != [] { NoneRecent(collect[..|collect| - 1], epoch[..|epoch| - 1]); }
  }

  // ---------- bit_packed_atomic_flags ----------

  lemma SetByte(mem: seq<bv8>, s: nat, t: nat)
    requires s < 8 * |mem| && t < 8 * |mem|
    ensures Bit(mem[s / 8 := mem[s / 8] | Mask(s % 8)][t / 8], t % 8) == (t == s || Bit(mem[t / 8], t % 8))
  {
    if t / 8 == s / 8 { SetBit(mem[s / 8], s % 8, t % 8); }
  }

  lemma ClearByte(mem: seq<bv8>, s: nat, t: nat)
    requires s < 8 * |mem| && t < 8 * |mem|
    ensures Bit(mem[s / 8 := mem[s / 8] & !Mask(s % 8)][t / 8], t % 8) == (t != s && Bit(mem[t / 8], t % 8))
  {
    if t / 8 == s / 8 { ClearBit(mem[s / 8], s % 8, t % 8); }
  }

  /** Collection flags packed eight to a byte. */
  class BitPackedFlags {
    var mem: seq<bv8>

    ghost function Flags(): (f: seq<bool>)
      reads this
    {
      seq(8 * |mem|, s requires 0 <= s < 8 * |mem| reads this => Bit(mem[s / 8], s % 8))
    }

    constructor (size: nat)
      ensures |Flags()| >= size && forall s | 0 <= s < |Flags()| :: Flags()[s]
    {
      mem := seq((size + 7) / 8, _ => 0xFF);
      new;
      forall s | 0 <= s < |Flags()| ensures Flags()[s] {
        assert mem[s / 8] == 0xFF;
      }
    }

    method BitSet(s: nat)
      requires s < |Flags()|
      modifies this
      ensures Flags() == old(Flags())[s := true]
    {
      mem := mem[s / 8 := mem[s / 8] | Mask(s % 8)];
      forall t | 0 <= t < |Flags()| ensures Flags()[t] == old(Flags())[s := true][t] {
        SetByte(old(mem), s, t);
      }
    }

    method BitUnset(s: nat)
      requires s < |Flags()|
      modifies this
      ensures Flags() == old(Flags())[s := false]
    {
      mem := mem[s / 8 := mem[s / 8] & !Mask(s % 8)];
      forall t | 0 <= t < |Flags()| ensures Flags()[t] == old(Flags())[s := false][t] {
        ClearByte(old(mem), s, t);
      }
    }

    method BitIsSet(s: nat) returns (r: bool)
      requires s < |Flags()|
      ensures r == Flags()[s]
    {
      r := Mask(s % 8) & mem[s / 8] != 0;
    }
  }

  /** The packed flags start with those of the table's slots. */
  ghost predicate Shows(flags: BitPackedFlags, collect: seq<bool>)
    reads flags
  {
    collect <= flags.Flags()
  }

  method AllowErase(flags: BitPackedFlags, ghost collect: seq<bool>, n: nat)
    requires n < |collect| && Shows(flags, collect)
    modifies flags
    ensures Shows(flags, collect[n := true])
  {
    flags.BitSet(n);
  }

  method PleaseKeep(flags: BitPackedFlags, ghost collect: seq<bool>, n: nat)
    requires n < |collect| && Shows(flags, collect)
    modifies flags
    ensures Shows(flags, collect[n := false])
  {
    flags.BitUnset(n);
  }

  // epoch_check's scan.
  method CountLive(flags: BitPackedFlags, ghost collect: seq<bool>, epoch: seq<bool>) returns (n: int)
    requires |collect| == |epoch| && Shows(flags, collect)
    ensures n == Live(collect, epoch)
  {
    n := 0;
    for i := 0 to |epoch|
      invariant n == Live(collect[..i], epoch[..i])
    {
      assert collect[..i + 1][..i] == collect[..i] && epoch[..i + 1][..i] == epoch[..i];
      var collectable := flags.BitIsSet(i);
      n := n + LiveAt(collectable, epoch[i]);
    }
    assert collect[..|epoch|] == collect && epoch[..|epoch|] == epoch;
  }

  /** Ageing: the old epoch becomes collectable and the current one old. */
  ghost function Aged(collect: seq<bool>, epoch: seq<bool>): seq<bool>
    requires |collect| == |epoch|
  {
    seq(|collect|, i requires 0 <= i < |collect| => collect[i] || !epoch[i])
  }

  // epoch_check's ageing.
  method Age(flags: BitPackedFlags, ghost collect: seq<bool>, epoch: seq<bool>) returns (epoch': seq<bool>)
    requires |collect| == |epoch| && Shows(flags, collect)
    modifies flags
    ensures Shows(flags, Aged(collect, epoch))
    ensures |epoch'| == |epoch| && forall i | 0 <= i < |epoch| :: !epoch'[i]
  {
    epoch' := epoch;
    ghost var now := collect;
    for i := 0 to |epoch|
      invariant |epoch'| == |epoch| == |now| && Shows(flags, now)
      invariant forall j | 0 <= j < i :: !epoch'[j] && now[j] == (collect[j] || !epoch[j])
      invariant forall j | i <= j < |collect| :: epoch'[j] == epoch[j] && now[j] == collect[j]
    {
      if epoch'[i] {
        epoch' := epoch'[i := false];
      } else {
        AllowErase(flags, now, i);
        now := now[i := true];
      }
    }
    assert now == Aged(collect, epoch);
  }

  // ---------- the table ----------

  /** Every entry that may not be collected is at one of its own locations. */
  ghost predicate Placed(H: HashFunction, table: seq<Element>, collect: seq<bool>) {
    |table| == |collect| && forall i | 0 <= i < |table| && !collect[i] :: IsLoc(H, |table|, table[i], i)
  }

  /** The elements of the table together with one in hand. */
  ghost function Contents(table: seq<Element>, hand: Element): multiset<Element> {
    multiset(table) + multiset{hand}
  }

  /** Exchanging the element in hand with one of the table loses nothing. */
  lemma SwapConserves(table: seq<Element>, i: nat, e: Element)
    requires i < |table|
    ensures Contents(table[i := e], table[i]) == Contents(table, e)
  {
  }

  // The index among e's locations of the first at which e is stored; LOCATIONS if none.
  method FindPresent(H: HashFunction, table: seq<Element>, e: Element) returns (k: nat)
    requires Is32Bit(H) && |table| > 0
    ensures k <= LOCATIONS
    ensures k < LOCATIONS ==> Loc(H, |table|, e, k) < |table| && table[Loc(H, |table|, e, k)] == e
    ensures k == LOCATIONS ==> forall j | 0 <= j < LOCATIONS :: Loc(H, |table|, e, j) < |table| && table[Loc(H, |table|, e, j)] != e
  {
    k := 0;
    while k < LOCATIONS
      invariant k <= LOCATIONS
      invariant forall j | 0 <= j < k :: Loc(H, |table|, e, j) < |table| && table[Loc(H, |table|, e, j)] != e
    {
      LocInTable(H, |table|, e, k);
      if table[Loc(H, |table|, e, k)] == e {
        return;
      }
      k := k + 1;
    }
  }

  // The index among e's locations of the first that may be collected; LOCATIONS if none.
  method FindFree(H: HashFunction, flags: BitPackedFlags, size: nat, ghost collect: seq<bool>, e: Element) returns (k: nat)
    requires Is32Bit(H) && size == |collect| > 0 && Shows(flags, collect)
    ensures k <= LOCATIONS
    ensures k < LOCATIONS ==> Loc(H, size, e, k) < size && collect[Loc(H, size, e, k)]
    ensures k == LOCATIONS ==> NoneFree(H, collect, e)
  {
    k := 0;
    while k < LOCATIONS
      invariant k <= LOCATIONS
      invariant forall j | 0 <= j < k :: Loc(H, size, e, j) < size && !collect[Loc(H, size, e, j)]
    {
      LocInTable(H, size, e, k);
      var collectable := flags.BitIsSet(Loc(H, size, e, k));
      if collectable {
        return;
      }
      k := k + 1;
    }
  }

  // The location after `last` among those of e, cyclically; the second one if `last` is none
  // of them, since then the search ends at 8.
  method NextLoc(H: HashFunction, size: nat, e: Element, last: int) returns (k: nat)
    ensures k < LOCATIONS
    ensures if IsLoc(H, size, e, last) then Loc(H, size, e, if k == 0 then LOCATIONS - 1 else k - 1) == last else k == 1
  {
    var j := 0;
    while j < LOCATIONS && Loc(H, size, e, j) != last
      invariant j <= LOCATIONS
      invariant forall i | 0 <= i < j :: Loc(H, size, e, i) != last
    {
      j := j + 1;
    }
    k := (1 + j) % LOCATIONS;
  }

  /** What an insertion is allowed to change: contents up to one discarded element, and one
      more live entry. */
  ghost predicate Inserted(H: HashFunction, table0: seq<Element>, collect0: seq<bool>, epoch0: seq<bool>, e: Element,
                           table: seq<Element>, collect: seq<bool>, epoch: seq<bool>, discarded: Element)
    requires |collect0| == |epoch0| && |collect| == |epoch|
  {
    && |table| == |table0| == |collect| && Placed(H, table, collect)
    && Contents(table, discarded) == Contents(table0, e)
    && Live(collect, epoch) <= Live(collect0, epoch0) + 1
  }

  ghost predicate NoneFree(H: HashFunction, collect: seq<bool>, e: Element) {
    forall k | 0 <= k < LOCATIONS :: Loc(H, |collect|, e, k) < |collect| && !collect[Loc(H, |collect|, e, k)]
  }

  /** Collectable slots still hold what they held. */
  ghost predicate GarbageKept(table0: seq<Element>, collect: seq<bool>, table: seq<Element>) {
    |table| == |table0| == |collect| && forall i | 0 <= i < |table| && collect[i] :: table[i] == table0[i]
  }

  // insert's displacement loop: `slot` is the collectable slot that was used up, or -1 when the
  // limit was reached and the last element displaced was dropped.
  method Displace(H: HashFunction, table0: seq<Element>, flags: BitPackedFlags, ghost collect0: seq<bool>, epoch0: seq<bool>, e0: Element, depthLimit: nat)
    returns (table: seq<Element>, ghost collect: seq<bool>, epoch: seq<bool>, discarded: Element, slot: int)
    requires Is32Bit(H) && |table0| == |collect0| == |epoch0| > 0 && Placed(H, table0, collect0) && Shows(flags, collect0)
    modifies flags
    ensures Shows(flags, collect)
    ensures |collect| == |epoch| && Inserted(H, table0, collect0, epoch0, e0, table, collect, epoch, discarded)
    ensures -1 <= slot < |table0|
    ensures slot >= 0 ==> collect0[slot] && discarded == table0[slot] && collect == collect0[slot := false]
    ensures slot == -1 ==> collect == collect0 && (depthLimit == 0 || NoneFree(H, collect0, e0))
    ensures slot >= 0 && !NoneFree(H, collect0, e0) ==> table == table0[slot := e0] && epoch == epoch0[slot := true]
  {
    table, collect, epoch := table0, collect0, epoch0;
    var e, lastLoc, lastEpoch := e0, -1, true;
    var size := |table|;
    for depth := 0 to depthLimit
      invariant |table| == |epoch| == size && collect == collect0 && Placed(H, table, collect) && Shows(flags, collect)
      invariant Contents(table, e) == Contents(table0, e0) && GarbageKept(table0, collect, table)
      invariant Live(collect, epoch) + (if lastEpoch then 1 else 0) <= Live(collect0, epoch0) + 1
      invariant if depth == 0 then table == table0 && epoch == epoch0 && e == e0 && lastEpoch else NoneFree(H, collect0, e0)
    {
      var k := FindFree(H, flags, size, collect, e);
      if k < LOCATIONS {
        slot := Loc(H, size, e, k);
        discarded := table[slot];
        StoreLast(H, table, collect, epoch, e, k, lastEpoch);
        PleaseKeep(flags, collect, slot);
        table, collect, epoch := table[slot := e], collect[slot := false], epoch[slot := lastEpoch];
        return;
      }
      var next := NextLoc(H, size, e, lastLoc);
      lastLoc := Loc(H, size, e, next);
      StoreNext(H, table, collect, epoch, e, next, lastEpoch);
      table, e := table[lastLoc := e], table[lastLoc];
      epoch, lastEpoch := epoch[lastLoc := lastEpoch], epoch[lastLoc];
    }
    discarded, slot := e, -1;
  }

  /** When a collectable slot was used up, only garbage is gone. */
  lemma OnlyGarbageLost(table0: seq<Element>, table: seq<Element>, e: Element, slot: nat, i: nat)
    requires slot < |table0| && Contents(table, table0[slot]) == Contents(table0, e)
    ensures e in table
    ensures i < |table0| && i != slot ==> table0[i] in table
  {
    var d: Element := table0[slot];
    var before, after := multiset(table0), multiset(table);
    assert d in table0;
    assert after + multiset{d} == before + multiset{e};
    assert (after + multiset{d})[e] == (before + multiset{e})[e];
    if i < |table0| && i != slot {
      var x: Element := table0[i];
      TwoPlaces(table0, slot, i);
      assert (after + multiset{d})[x] == (before + multiset{e})[x];
    }
  }

  lemma OthersStay(table0: seq<Element>, table: seq<Element>, e: Element, slot: nat)
    requires slot < |table0| && Contents(table, table0[slot]) == Contents(table0, e)
    ensures e in table && forall i | 0 <= i < |table0| && i != slot :: table0[i] in table
  {
    OnlyGarbageLost(table0, table, e, slot, slot);
    forall i | 0 <= i < |table0| && i != slot ensures table0[i] in table {
      OnlyGarbageLost(table0, table, e, slot, i);
    }
  }

  lemma TwoPlaces(s: seq<Element>, i: nat, j: nat)
    requires i < |s| && j < |s| && i != j
    ensures s[j] in s && (s[i] == s[j] ==> multiset(s)[s[j]] >= 2)
  {
    var a, b := if i < j then i else j, if i < j then j else i;
    assert s == s[..a] + [s[a]] + s[a + 1..b] + [s[b]] + s[b + 1..];
  }

  /** Storing an element in a slot that may be collected. */
  lemma StoreLast(H: HashFunction, table: seq<Element>, collect: seq<bool>, epoch: seq<bool>, e: Element, k: nat, recent: bool)
    requires Placed(H, table, collect) && |epoch| == |table| && k < LOCATIONS && Loc(H, |table|, e, k) < |table| && collect[Loc(H, |table|, e, k)]
    ensures var i := Loc(H, |table|, e, k);
            && Contents(table[i := e], table[i]) == Contents(table, e) && Placed(H, table[i := e], collect[i := false])
            && Live(collect[i := false], epoch[i := recent]) == Live(collect, epoch) + if recent then 1 else 0
  {
    var i := Loc(H, |table|, e, k);
    SwapConserves(table, i, e);
    LiveUpdate(collect, epoch, i, false, recent);
    StoreKeeps(H, table, collect, e, k);
  }

  /** Displacing an element that may not be collected. */
  lemma StoreNext(H: HashFunction, table: seq<Element>, collect: seq<bool>, epoch: seq<bool>, e: Element, k: nat, recent: bool)
    requires Placed(H, table, collect) && |epoch| == |table| && k < LOCATIONS && Loc(H, |table|, e, k) < |table| && !collect[Loc(H, |table|, e, k)]
    ensures var i := Loc(H, |table|, e, k);
            && Contents(table[i := e], table[i]) == Contents(table, e) && Placed(H, table[i := e], collect)
            && Live(collect, epoch[i := recent]) + (if epoch[i] then 1 else 0) == Live(collect, epoch) + if recent then 1 else 0
  {
    var i := Loc(H, |table|, e, k);
    SwapConserves(table, i, e);
    LiveUpdate(collect, epoch, i, collect[i], recent);
    assert collect[i := collect[i]] == collect;
    StoreKeeps(H, table, collect, e, k);
  }

  lemma StoreKeeps(H: HashFunction, table: seq<Element>, collect: seq<bool>, e: Element, k: nat)
    requires Placed(H, table, collect) && k < LOCATIONS && Loc(H, |table|, e, k) < |table|
    ensures var loc := Loc(H, |table|, e, k);
            Placed(H, table[loc := e], collect) && Placed(H, table[loc := e], collect[loc := false])
  {
    assert IsLoc(H, |table|, e, Loc(H, |table|, e, k));
  }

  function Max(a: int, b: int): (r: int)
    ensures r >= a && r >= b && (r == a || r == b)
  {
    if a > b then a else b
  }

  /** By how much the current epoch may outgrow its size before the next scan. */
  function Slack(epochSize: int): int {
    Max(1, epochSize / 16)
  }

  class Cache {
    var table: seq<Element>
    const flags: BitPackedFlags
    // What the packed flags show for the slots of the table.
    ghost var collect: seq<bool>
    var epoch: seq<bool>
    var counter: int
    var epochSize: int
    var depthLimit: nat

    ghost predicate Shape()
      reads this, flags
    {
      |table| == |collect| == |epoch| >= 2 && epochSize >= 1 && counter >= 0 && Shows(flags, collect)
    }

    /** Live entries of the current epoch plus insertions until the next scan are bounded, so
        the live entries alone are. */
    ghost predicate Valid(H: HashFunction)
      reads this, flags
    {
      && Shape() && Placed(H, table, collect)
      && Live(collect, epoch) + counter <= epochSize + Slack(epochSize)
    }

    // setup; the default element fills the table and every slot may be collected.
    constructor (newSize: nat, depthLimit: nat, H: HashFunction)
      ensures Valid(H) && fresh(flags) && |table| == Max(2, newSize) && epochSize == Max(1, 45 * Max(2, newSize) % TWO32 / 100)
      ensures Live(collect, epoch) == 0 && this.depthLimit == depthLimit
    {
      var size := Max(2, newSize);
      table, epoch := seq(size, _ => 0), seq(size, _ => false);
      var packed := new BitPackedFlags(size);
      flags, collect := packed, seq(size, _ => true);
      epochSize := Max(1, 45 * size % TWO32 / 100);
      counter := Max(1, 45 * size % TWO32 / 100);
      this.depthLimit := depthLimit;
      new;
      NoneRecent(collect, epoch);
    }

    /** Whether the next insertion scans the epoch and finds it full. */
    ghost predicate EpochFull()
      requires |collect| == |epoch|
      reads this
    {
      counter == 0 && Live(collect, epoch) >= epochSize
    }

    method EpochCheck(H: HashFunction)
      requires Valid(H)
      modifies this`collect, this`epoch, this`counter, flags
      ensures HasRoom(H)
      // The current epoch is aged, at a scan, exactly when it is full.
      ensures old(EpochFull()) ==> collect == Aged(old(collect), old(epoch)) && forall i | 0 <= i < |table| :: !epoch[i]
      ensures !old(EpochFull()) ==> collect == old(collect) && epoch == old(epoch)
    {
      if counter != 0 {
        counter := counter - 1;
        return;
      }
      var unused := CountLive(flags, collect, epoch);
      if unused >= epochSize {
        ghost var aged := Aged(collect, epoch);
        epoch := Age(flags, collect, epoch);
        collect := aged;
        NoneRecent(collect, epoch);
        counter := epochSize;
      } else {
        counter := Max(1, Max(epochSize / 16, epochSize - unused));
      }
    }

    // Returns whether the element was found, and if not, the slot of garbage that made room for
    // it, or -1 when something live had to go.  `aged` are the flags after the epoch check.
    method Insert(H: HashFunction, e: Element) returns (present: bool, slot: int, ghost discarded: Element, ghost aged: seq<bool>)
      requires Is32Bit(H) && Valid(H)
      modifies this`table, this`collect, this`epoch, this`counter, flags
      ensures Valid(H) && |table| == |old(table)|
      ensures aged == if old(EpochFull()) then Aged(old(collect), old(epoch)) else old(collect)
      ensures present <==> exists k | 0 <= k < LOCATIONS :: Stored(H, old(table), e, k)
      ensures present ==> table == old(table) && exists k | 0 <= k < LOCATIONS ::
                Stored(H, table, e, k) && slot == Loc(H, |table|, e, k) && collect == aged[slot := false] && epoch[slot]
      ensures !present ==> Contents(table, discarded) == Contents(old(table), e) && -1 <= slot < |table|
      ensures !present && slot >= 0 ==> aged[slot] && discarded == old(table)[slot] && collect == aged[slot := false]
      ensures !present && slot >= 0 ==> e in table && forall i | 0 <= i < |table| && i != slot :: old(table)[i] in table
      ensures !present && slot < 0 ==> collect == aged && (depthLimit == 0 || NoneFree(H, aged, e))
    {
      EpochCheck(H);
      aged := collect;
      var k := FindPresent(H, table, e);
      present := k < LOCATIONS;
      if present {
        slot, discarded := Loc(H, |table|, e, k), e;
        assert Stored(H, table, e, k);
        KeepAlive(H, e, k);
      } else {
        slot, discarded := Place(H, e);
      }
    }

    /** As Valid, with room for one more live entry. */
    ghost predicate HasRoom(H: HashFunction)
      reads this, flags
    {
      Shape() && Placed(H, table, collect) && Live(collect, epoch) + counter < epochSize + Slack(epochSize)
    }

    // insert for an element found at its k-th location.
    method KeepAlive(H: HashFunction, e: Element, k: nat)
      requires HasRoom(H) && k < LOCATIONS && Stored(H, table, e, k)
      modifies this`collect, this`epoch, flags
      ensures Valid(H)
      ensures collect == old(collect)[Loc(H, |table|, e, k) := false] && epoch == old(epoch)[Loc(H, |table|, e, k) := true]
    {
      var loc := Loc(H, |table|, e, k);
      LiveUpdate(collect, epoch, loc, false, true);
      KeepPlaced(H, table, collect, e, k);
      PleaseKeep(flags, collect, loc);
      collect, epoch := collect[loc := false], epoch[loc := true];
    }

    // insert for an element that is not found.
    method Place(H: HashFunction, e: Element) returns (slot: int, ghost discarded: Element)
      requires Is32Bit(H) && HasRoom(H)
      modifies this`table, this`collect, this`epoch, flags
      ensures Valid(H) && |table| == |old(table)| && -1 <= slot < |table|
      ensures Contents(table, discarded) == Contents(old(table), e)
      ensures slot >= 0 ==> old(collect)[slot] && discarded == old(table)[slot] && collect == old(collect)[slot := false]
      ensures slot >= 0 ==> e in table && forall i | 0 <= i < |table| && i != slot :: old(table)[i] in table
      ensures slot < 0 ==> collect == old(collect) && (depthLimit == 0 || NoneFree(H, old(collect), e))
    {
      var gone;
      table, collect, epoch, gone, slot := Displace(H, table, flags, collect, epoch, e, depthLimit);
      discarded := gone;
      if slot >= 0 {
        OthersStay(old(table), table, e, slot);
      }
    }

    // Erasing only marks the slot: the element is still found until the slot is reused.
    method Contains(H: HashFunction, e: Element, erase: bool) returns (found: bool)
      requires Is32Bit(H) && Valid(H)
      modifies this`collect, flags
      ensures Valid(H)
      ensures found <==> exists k | 0 <= k < LOCATIONS :: Stored(H, table, e, k)
      ensures !(found && erase) ==> collect == old(collect)
      ensures found && erase ==> exists k | 0 <= k < LOCATIONS :: Stored(H, table, e, k) && collect == old(collect)[Loc(H, |table|, e, k) := true]
    {
      var k := FindPresent(H, table, e);
      found := k < LOCATIONS;
      if found {
        assert Stored(H, table, e, k);
        if erase {
          var loc := Loc(H, |table|, e, k);
          LiveUpdate(collect, epoch, loc, true, epoch[loc]);
          assert epoch[loc := epoch[loc]] == epoch;
          AllowErase(flags, collect, loc);
          collect := collect[loc := true];
        }
      }
    }
  }

  /** e is stored at its k-th location. */
  ghost predicate Stored(H: HashFunction, table: seq<Element>, e: Element, k: nat) {
    Loc(H, |table|, e, k) < |table| && table[Loc(H, |table|, e, k)] == e
  }

  lemma KeepPlaced(H: HashFunction, table: seq<Element>, collect: seq<bool>, e: Element, k: nat)
    requires Placed(H, table, collect) && k < LOCATIONS && Stored(H, table, e, k)
    ensures Placed(H, table, collect[Loc(H, |table|, e, k) := false])
  {
    assert IsLoc(H, |table|, e, Loc(H, |table|, e, k));
  }

  /** Nothing that may not be collected is ever out of reach of a lookup. */
  lemma LiveIsFound(H: HashFunction, table: seq<Element>, collect: seq<bool>, i: nat)
    requires Placed(H, table, collect) && i < |table| && !collect[i]
    ensures exists k | 0 <= k < LOCATIONS :: Stored(H, table, table[i], k)
  {
    var k :| 0 <= k < LOCATIONS && Loc(H, |table|, table[i], k) == i;
    assert Stored(H, table, table[i], k);
  }

  /** After an insertion that found no copy, at most one element is gone: every other one is
      still in the table, and the inserted one is too unless it is the one discarded. */
  lemma OnlyOneLost(table0: seq<Element>, table: seq<Element>, e: Element, discarded: Element, x: Element)
    requires Contents(table, discarded) == Contents(table0, e) && (x in table0 || x == e)
    ensures x in table || x == discarded
  {
    assert x in Contents(table0, e);
    assert x in Contents(table, discarded);
  }

  lemma LiveShare(size: int, epochSize: int, live: int)
    requires 0 <= 45 * size < TWO32 && epochSize == Max(1, 45 * size % TWO32 / 100) && live <= epochSize + Slack(epochSize)
    ensures 1600 * live <= 765 * size + 3200
  {
  }

  datatype Op = OpInsert(e: Element) | OpContains(e: Element, erase: bool)

  // Over every run, the live entries of the current epoch stay within the epoch size plus slack.
  method Run(H: HashFunction, newSize: nat, depthLimit: nat, ops: seq<Op>) returns (c: Cache)
    requires Is32Bit(H)
    ensures c.Valid(H) && c.epochSize == Max(1, 45 * Max(2, newSize) % TWO32 / 100)
    ensures Live(c.collect, c.epoch) <= c.epochSize + Slack(c.epochSize)
    // Less than half of a table of any usual size.
    ensures 45 * Max(2, newSize) < TWO32 ==> 1600 * Live(c.collect, c.epoch) <= 765 * Max(2, newSize) + 3200
  {
    ghost var size := Max(2, newSize);
    c := new Cache(newSize, depthLimit, H);
    for i := 0 to |ops|
      invariant c.Valid(H) && fresh(c) && fresh(c.flags) && c.epochSize == Max(1, 45 * Max(2, newSize) % TWO32 / 100)
    {
      match ops[i]
      case OpInsert(e) => var _, _, _, _ := c.Insert(H, e);
      case OpContains(e, erase) => var _ := c.Contains(H, e, erase);
    }
    if 45 * size < TWO32 { LiveShare(size, c.epochSize, Live(c.collect, c.epoch)); }
  }
}
